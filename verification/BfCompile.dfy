/** The Brainfuck compiler (bf.c, compile_bf): bracket matching with an explicit stack. */
module BfCompile {
  import opened Brainfuck
  import opened Options

  const PROGRAM_SIZE := 4096
  const STACK_SIZE := 512

  function OpOf(c: char): nat {
    match c
    case '>' => OP_INC_DP
    case '<' => OP_DEC_DP
    case '+' => OP_INC_VAL
    case '-' => OP_DEC_VAL
    case '.' => OP_OUT
    case ',' => OP_IN
    case '[' => OP_JMP_FWD
    case ']' => OP_JMP_BCK
    case _ => OP_END
  }

  /** The commands in a source text; every other character is a comment. */
  function Commands(code: string): (r: seq<nat>)
    ensures forall i | 0 <= i < |r| :: OP_INC_DP <= r[i] <= OP_JMP_BCK
  {
    if code == [] then []
    else
      var op := OpOf(code[|code| - 1]);
      Commands(code[..|code| - 1]) + if op != OP_END then [op] else []
  }

  /** Brackets open after the first k commands. */
  function Depth(ops: seq<int>, k: nat): int
    requires k <= |ops|
  {
    if k == 0 then 0
    else Depth(ops, k - 1) + if ops[k - 1] == OP_JMP_FWD then 1 else if ops[k - 1] == OP_JMP_BCK then -1 else 0
  }

  /** Balanced, nested at most 512 deep, at most 4095 commands. */
  ghost predicate Compilable(ops: seq<int>) {
    |ops| < PROGRAM_SIZE && Depth(ops, |ops|) == 0 && forall k | 0 <= k <= |ops| :: Fits(ops, k)
  }

  ghost predicate Fits(ops: seq<int>, k: nat)
    requires k <= |ops|
  {
    0 <= Depth(ops, k) <= STACK_SIZE
  }

  /** The bracket at j closes the one at i. */
  ghost predicate Match(ops: seq<int>, i: int, j: int) {
    && 0 <= i < j < |ops| && ops[i] == OP_JMP_FWD && ops[j] == OP_JMP_BCK
    && Depth(ops, j + 1) == Depth(ops, i) && forall k | i < k <= j :: Depth(ops, k) > Depth(ops, i)
  }

  lemma MatchUnique(ops: seq<int>, i: int, j: int, j': int)
    requires Match(ops, i, j) && Match(ops, i, j')
    ensures j == j'
  {
    if j < j' {
      MatchAbove(ops, i, j', j + 1);
      assert false;
    } else if j' < j {
      MatchAbove(ops, i, j, j' + 1);
      assert false;
    }
  }

  lemma MatchAbove(ops: seq<int>, i: int, j: int, k: int)
    requires Match(ops, i, j) && i < k <= j
    ensures Depth(ops, k) > Depth(ops, i)
  {
  }

  /** A finished program: the commands, their brackets linked both ways, and an end mark. */
  ghost predicate Linked(P: seq<Instruction>, ops: seq<int>) {
    && |ops| < |P| && P[|ops|].operator == OP_END
    && (forall i | 0 <= i < |ops| :: P[i].operator == ops[i])
    && (forall i | 0 <= i < |ops| && ops[i] == OP_JMP_FWD :: Closed(ops, P, i, |ops|))
    && forall j | 0 <= j < |ops| && ops[j] == OP_JMP_BCK :: Closes(ops, P, j)
  }

  ghost predicate Closed(ops: seq<int>, P: seq<Instruction>, i: nat, pc: nat)
    requires i < |P| && pc <= |P|
  {
    P[i].operand < pc && Match(ops, i, P[i].operand) && P[P[i].operand].operand == i
  }

  ghost predicate Closes(ops: seq<int>, P: seq<Instruction>, j: nat)
    requires j < |P|
  {
    0 <= P[j].operand < j && Match(ops, P[j].operand, j) && P[P[j].operand].operand == j
  }

  // ---------------------------------------------------------------- the compile loop

  /** Position i is open at nesting depth t, after pc commands. */
  ghost predicate OpenAt(ops: seq<int>, i: int, t: int, pc: nat) {
    && 0 <= i < pc <= |ops| && ops[i] == OP_JMP_FWD && Depth(ops, i) == t
    && forall k | i < k <= pc :: Depth(ops, k) > t
  }

  ghost predicate OnStack(S: seq<int>, sp: nat, i: int) {
    sp <= |S| && i in S[..sp]
  }

  ghost predicate Linking(ops: seq<int>, P: seq<Instruction>, S: seq<int>, sp: nat, pc: nat) {
    && |P| == PROGRAM_SIZE && |S| == STACK_SIZE && sp <= STACK_SIZE && pc <= |ops| && pc <= PROGRAM_SIZE
    && sp == Depth(ops, pc)
    && (forall k | 0 <= k <= pc :: Fits(ops, k))
    && (forall i | 0 <= i < pc :: P[i].operator == ops[i])
    && (forall t | 0 <= t < sp :: OpenAt(ops, S[t], t, pc))
    && (forall i | 0 <= i < pc && ops[i] == OP_JMP_FWD :: OnStack(S, sp, i) || Closed(ops, P, i, pc))
    && forall j | 0 <= j < pc && ops[j] == OP_JMP_BCK :: Closes(ops, P, j)
  }

  lemma OpenStays(ops: seq<int>, i: int, t: int, pc: nat)
    requires OpenAt(ops, i, t, pc) && pc < |ops| && Depth(ops, pc + 1) > t
    ensures OpenAt(ops, i, t, pc + 1)
  {
  }

  lemma PlainStep(ops: seq<int>, P: seq<Instruction>, S: seq<int>, sp: nat, pc: nat, P': seq<Instruction>)
    requires Linking(ops, P, S, sp, pc) && pc < |ops| && pc < PROGRAM_SIZE && Simple(ops[pc])
    requires P' == P[pc := P[pc].(operator := ops[pc])]
    ensures Linking(ops, P', S, sp, pc + 1)
  {
    hide Depth, OnStack, Match;
    assert Depth(ops, pc + 1) == Depth(ops, pc) by { DepthStep(ops, pc); }
    assert Fits(ops, pc);
    KeepOpen(ops, S, sp, pc);
    KeepLinks(ops, P, P', pc, pc);
  }

  lemma DepthStep(ops: seq<int>, pc: nat)
    requires pc < |ops|
    ensures Depth(ops, pc + 1)
         == Depth(ops, pc) + if ops[pc] == OP_JMP_FWD then 1 else if ops[pc] == OP_JMP_BCK then -1 else 0
  {
  }

  lemma KeepOpen(ops: seq<int>, S: seq<int>, sp: nat, pc: nat)
    requires sp <= |S| && pc < |ops| && Depth(ops, pc + 1) >= sp && forall t | 0 <= t < sp :: OpenAt(ops, S[t], t, pc)
    ensures forall t | 0 <= t < sp :: OpenAt(ops, S[t], t, pc + 1)
  {
    hide Depth, OpenAt;
    forall t | 0 <= t < sp
      ensures OpenAt(ops, S[t], t, pc + 1)
    {
      OpenStays(ops, S[t], t, pc);
    }
  }

  /**
   * Links among the first pc commands survive changes to entry pc, and to the operand of an entry c that is not yet
   * closed.
   */
  lemma KeepLinks(ops: seq<int>, P: seq<Instruction>, P': seq<Instruction>, pc: nat, c: nat)
    requires pc < |ops| && |P| == |P'| == PROGRAM_SIZE && pc < PROGRAM_SIZE && c <= pc
    requires forall i | 0 <= i < pc && i != c :: P'[i] == P[i]
    requires c < pc ==> ops[c] == OP_JMP_FWD && !Closed(ops, P, c, pc)
    ensures forall i | 0 <= i < pc && ops[i] == OP_JMP_FWD && Closed(ops, P, i, pc) :: Closed(ops, P', i, pc + 1)
    ensures (forall j | 0 <= j < pc && ops[j] == OP_JMP_BCK :: Closes(ops, P, j))
        ==> forall j | 0 <= j < pc && ops[j] == OP_JMP_BCK :: Closes(ops, P', j)
  {
    hide Depth;
    forall j | 0 <= j < pc && ops[j] == OP_JMP_BCK && Closes(ops, P, j)
      ensures Closes(ops, P', j)
    {
      if P[j].operand == c {
        assert false;
      }
    }
  }

  lemma PushStep(ops: seq<int>, P: seq<Instruction>, S: seq<int>, sp: nat, pc: nat, P': seq<Instruction>, S': seq<int>)
    requires Linking(ops, P, S, sp, pc) && pc < |ops| && pc < PROGRAM_SIZE && ops[pc] == OP_JMP_FWD && sp < STACK_SIZE
    requires P' == P[pc := P[pc].(operator := ops[pc])] && S' == S[sp := pc]
    ensures Linking(ops, P', S', sp + 1, pc + 1)
  {
    hide Depth, OnStack, Match;
    DepthStep(ops, pc);
    KeepOpen(ops, S, sp, pc);
    KeepLinks(ops, P, P', pc, pc);
    NewOpen(ops, pc);
    StackGrows(S, sp, pc);
  }

  lemma NewOpen(ops: seq<int>, pc: nat)
    requires pc < |ops| && ops[pc] == OP_JMP_FWD
    ensures OpenAt(ops, pc, Depth(ops, pc), pc + 1)
  {
  }

  lemma StackGrows(S: seq<int>, sp: nat, x: int)
    requires sp < |S|
    ensures OnStack(S[sp := x], sp + 1, x) && forall i :: OnStack(S, sp, i) ==> OnStack(S[sp := x], sp + 1, i)
  {
    var S' := S[sp := x];
    assert S'[..sp + 1] == S[..sp] + [x];
  }

  lemma OpenNotClosed(ops: seq<int>, P: seq<Instruction>, i: nat, t: int, pc: nat)
    requires OpenAt(ops, i, t, pc) && i < |P| && pc <= |P|
    ensures !Closed(ops, P, i, pc)
  {
    hide Depth;
  }

  lemma NewMatch(ops: seq<int>, i: nat, pc: nat)
    requires pc < |ops| && ops[pc] == OP_JMP_BCK && OpenAt(ops, i, Depth(ops, pc) - 1, pc)
    ensures Match(ops, i, pc)
  {
  }

  lemma PopStep(ops: seq<int>, P: seq<Instruction>, S: seq<int>, sp: nat, pc: nat, P': seq<Instruction>)
    requires Linking(ops, P, S, sp, pc) && pc < |ops| && pc < PROGRAM_SIZE && ops[pc] == OP_JMP_BCK && sp > 0
    requires 0 <= S[sp - 1] < pc
    requires P' == P[pc := Instruction(OP_JMP_BCK, S[sp - 1])][S[sp - 1] := P[S[sp - 1]].(operand := pc)]
    ensures Linking(ops, P', S, sp - 1, pc + 1)
  {
    hide Depth, OnStack, Match;
    var c := S[sp - 1];
    DepthStep(ops, pc);
    assert OpenAt(ops, c, sp - 1, pc);
    OpenNotClosed(ops, P, c, sp - 1, pc);
    NewMatch(ops, c, pc);
    KeepOpen(ops, S, sp - 1, pc);
    KeepLinks(ops, P, P', pc, c);
    assert Fits(ops, pc);
    StackShrinks(S, sp);
    PopRest(ops, P, S, sp, pc, P', c);
  }

  lemma PopRest(ops: seq<int>, P: seq<Instruction>, S: seq<int>, sp: nat, pc: nat, P': seq<Instruction>, c: nat)
    requires |P| == |P'| == PROGRAM_SIZE && pc < |ops| && pc < PROGRAM_SIZE && sp > 0 && c < pc && ops[c] == OP_JMP_FWD
    requires ops[pc] == OP_JMP_BCK && Match(ops, c, pc)
    requires P' == P[pc := Instruction(OP_JMP_BCK, c)][c := P[c].(operand := pc)]
    requires forall i :: OnStack(S, sp, i) ==> OnStack(S, sp - 1, i) || i == c
    requires forall i | 0 <= i < pc && ops[i] == OP_JMP_FWD :: OnStack(S, sp, i) || Closed(ops, P, i, pc)
    requires forall i | 0 <= i < pc && ops[i] == OP_JMP_FWD && Closed(ops, P, i, pc) :: Closed(ops, P', i, pc + 1)
    ensures forall i | 0 <= i < pc + 1 && ops[i] == OP_JMP_FWD :: OnStack(S, sp - 1, i) || Closed(ops, P', i, pc + 1)
    ensures Closes(ops, P', pc)
  {
    hide Match, OnStack;
    assert Closed(ops, P', c, pc + 1);
  }

  lemma StackShrinks(S: seq<int>, sp: nat)
    requires 0 < sp <= |S|
    ensures forall i :: OnStack(S, sp, i) ==> OnStack(S, sp - 1, i) || i == S[sp - 1]
  {
    assert S[..sp] == S[..sp - 1] + [S[sp - 1]];
  }

  lemma StackTop(ops: seq<int>, P: seq<Instruction>, S: seq<int>, sp: nat, pc: nat)
    requires Linking(ops, P, S, sp, pc) && sp > 0
    ensures 0 <= S[sp - 1] < pc
  {
    hide Depth, OnStack, Match;
    assert OpenAt(ops, S[sp - 1], sp - 1, pc);
  }

  /** The commands of a prefix of the text are a prefix of the commands. */
  lemma {:induction false} CommandsPrefix(code: string, n: nat)
    requires n < |code|
    ensures Commands(code[..n]) <= Commands(code)
    ensures OpOf(code[n]) == OP_END ==> Commands(code[..n + 1]) == Commands(code[..n])
    ensures OpOf(code[n]) != OP_END ==> Commands(code[..n + 1]) == Commands(code[..n]) + [OpOf(code[n])]
    ensures Commands(code[..n + 1]) <= Commands(code)
    decreases |code|
  {
    var front := code[..n + 1];
    assert front[..|front| - 1] == code[..n];
    if n + 1 == |code| {
      assert front == code;
    } else {
      var shorter := code[..|code| - 1];
      assert shorter[..n] == code[..n] && shorter[..n + 1] == front;
      CommandsPrefix(shorter, n);
    }
  }

  lemma StartLinking(ops: seq<int>, P: seq<Instruction>, S: seq<int>)
    requires |P| == PROGRAM_SIZE && |S| == STACK_SIZE
    ensures Linking(ops, P, S, 0, 0) && Commands([]) == []
  {
    assert Fits(ops, 0);
  }

  lemma LinkingDepth(ops: seq<int>, P: seq<Instruction>, S: seq<int>, sp: nat, pc: nat)
    requires Linking(ops, P, S, sp, pc)
    ensures pc <= |ops| && Depth(ops, pc) == sp
  {
  }

  /** An opening bracket at depth 512, or a closing one at depth 0. */
  lemma BadBracket(ops: seq<int>, pc: nat)
    requires pc < |ops|
    requires (ops[pc] == OP_JMP_FWD && Depth(ops, pc) == STACK_SIZE) || (ops[pc] == OP_JMP_BCK && Depth(ops, pc) == 0)
    ensures !Compilable(ops)
  {
    if Compilable(ops) {
      DepthFits(ops, pc + 1);
      assert false;
    }
  }

  lemma DepthFits(ops: seq<int>, k: nat)
    requires Compilable(ops) && k <= |ops|
    ensures 0 <= Depth(ops, k) <= STACK_SIZE
  {
    assert Fits(ops, k);
  }

  lemma BadEnd(ops: seq<int>, pc: nat)
    requires pc <= |ops| && (pc == PROGRAM_SIZE || (pc == |ops| && Depth(ops, pc) != 0))
    ensures !Compilable(ops)
  {
  }

  lemma Finished(ops: seq<int>, P: seq<Instruction>, S: seq<int>, P': seq<Instruction>)
    requires Linking(ops, P, S, 0, |ops|) && |ops| < PROGRAM_SIZE && P' == P[|ops| := P[|ops|].(operator := OP_END)]
    ensures Compilable(ops) && Linked(P', ops)
  {
    hide Depth;
    forall i | 0 <= i < |ops| && ops[i] == OP_JMP_FWD
      ensures Closed(ops, P', i, |ops|)
    {
      assert !OnStack(S, 0, i);
      assert Closed(ops, P, i, |ops|);
      assert P'[i] == P[i];
    }
    forall j | 0 <= j < |ops| && ops[j] == OP_JMP_BCK
      ensures Closes(ops, P', j)
    {
      assert Closes(ops, P, j) && P'[j] == P[j];
    }
  }

  /**
   * bf.c:65-102: compilation succeeds exactly for balanced, small enough programs, and links every pair of brackets.
   */
  method Compile(code: string, program: array<Instruction>, stack: array<int>) returns (ok: bool)
    requires program.Length == PROGRAM_SIZE && stack.Length == STACK_SIZE
    modifies program, stack
    ensures ok <==> Compilable(Commands(code))
    ensures ok ==> Linked(program[..], Commands(code))
  {
    hide Linking, Linked, Compilable, Commands, Depth;
    ghost var ops := Commands(code);
    var pc, sp, n := 0, 0, 0;
    StartLinking(ops, program[..], stack[..]);
    while n < |code|
      invariant 0 <= n <= |code| && pc == |Commands(code[..n])| && Commands(code[..n]) <= ops
      invariant 0 <= sp <= STACK_SIZE && pc <= PROGRAM_SIZE && Linking(ops, program[..], stack[..], sp, pc)
    {
      if pc >= PROGRAM_SIZE {
        break;
      }
      var op := OpOf(code[n]);
      CommandsPrefix(code, n);
      ghost var P, S := program[..], stack[..];
      LinkingDepth(ops, P, S, sp, pc);
      if op == OP_JMP_FWD {
        program[pc] := program[pc].(operator := op);
        if sp == STACK_SIZE {
          BadBracket(ops, pc);
          return false;
        }
        stack[sp] := pc;
        PushStep(ops, P, S, sp, pc, program[..], stack[..]);
        sp := sp + 1;
      } else if op == OP_JMP_BCK {
        if sp == 0 {
          BadBracket(ops, pc);
          return false;
        }
        StackTop(ops, P, S, sp, pc);
        sp := sp - 1;
        var jump := stack[sp];
        program[pc] := program[pc].(operator := op);
        program[pc] := program[pc].(operand := jump);
        program[jump] := program[jump].(operand := pc);
        PopStep(ops, P, S, sp + 1, pc, program[..]);
      } else if op != OP_END {
        program[pc] := program[pc].(operator := op);
        PlainStep(ops, P, S, sp, pc, program[..]);
      }
      if op != OP_END {
        pc := pc + 1;
      }
      n := n + 1;
    }
    LinkingDepth(ops, program[..], stack[..], sp, pc);
    assert n == |code| ==> code[..n] == code;
    if sp != 0 || pc == PROGRAM_SIZE {
      BadEnd(ops, pc);
      return false;
    }
    ghost var P := program[..];
    program[pc] := program[pc].(operator := OP_END);
    Finished(ops, P, stack[..], program[..]);
    return true;
  }

  // ---------------------------------------------------------------- structured programs

  /** The commands of a structured program. */
  function Flatten(cs: seq<Command>): (r: seq<int>)
    ensures |r| == Size(cs)
    decreases cs
  {
    if cs == [] then []
    else
      (match cs[0]
       case Basic(op) => [op]
       case Loop(body) => [OP_JMP_FWD] + Flatten(body) + [OP_JMP_BCK]) + Flatten(cs[1..])
  }

  ghost predicate Balanced(ops: seq<int>) {
    Depth(ops, |ops|) == 0 && forall k | 0 <= k <= |ops| :: Depth(ops, k) >= 0
  }

  ghost predicate AllCommands(ops: seq<int>) {
    forall i | 0 <= i < |ops| :: OP_INC_DP <= ops[i] <= OP_JMP_BCK
  }

  lemma {:induction false} DepthSlice(ops: seq<int>, a: nat, part: seq<int>, k: nat)
    requires a + |part| <= |ops| && ops[a..a + |part|] == part && k <= |part|
    ensures Depth(ops, a + k) == Depth(ops, a) + Depth(part, k)
    decreases k
  {
    if k > 0 {
      DepthSlice(ops, a, part, k - 1);
      assert ops[a..a + |part|][k - 1] == ops[a + k - 1];
    }
  }

  lemma SlicesBalanced(ops: seq<int>, a: nat, part: seq<int>)
    requires a + |part| <= |ops| && ops[a..a + |part|] == part && Balanced(part)
    ensures Depth(ops, a + |part|) == Depth(ops, a)
    ensures forall k | a <= k <= a + |part| :: Depth(ops, k) >= Depth(ops, a)
  {
    hide Depth;
    DepthSlice(ops, a, part, |part|);
    forall k | a <= k <= a + |part|
      ensures Depth(ops, k) >= Depth(ops, a)
    {
      DepthSlice(ops, a, part, k - a);
      assert Depth(part, k - a) >= 0;
    }
  }

  /** Structured programs have balanced brackets. */
  lemma {:induction false} FlattenBalanced(cs: seq<Command>)
    requires Structured(cs)
    ensures Balanced(Flatten(cs)) && AllCommands(Flatten(cs))
    decreases cs
  {
    if cs != [] {
      var ops, rest := Flatten(cs), Flatten(cs[1..]);
      FlattenBalanced(cs[1..]);
      match cs[0] {
        case Basic(op) =>
          assert ops[1..] == rest;
          DepthStep(ops, 0);
          SlicesBalanced(ops, 1, rest);
        case Loop(body) =>
          FlattenBalanced(body);
          LoopBalanced(ops, Flatten(body), rest);
      }
    }
  }

  lemma LoopBalanced(ops: seq<int>, b: seq<int>, rest: seq<int>)
    requires ops == [OP_JMP_FWD] + b + [OP_JMP_BCK] + rest && Balanced(b) && Balanced(rest) && AllCommands(b)
    requires AllCommands(rest)
    ensures Balanced(ops) && AllCommands(ops)
  {
    hide Depth;
    var close := 1 + |b|;
    assert ops[1..1 + |b|] == b && ops[close] == OP_JMP_BCK && ops[close + 1..close + 1 + |rest|] == rest;
    DepthZero(ops);
    DepthStep(ops, 0);
    SlicesBalanced(ops, 1, b);
    DepthStep(ops, close);
    SlicesBalanced(ops, close + 1, rest);
  }

  lemma DepthZero(ops: seq<int>)
    ensures Depth(ops, 0) == 0
  {
  }

  /** The bracket that brings the depth back to 0 for the first time. */
  lemma {:induction false} FirstReturn(ops: seq<int>, k: nat) returns (j: nat)
    requires Balanced(ops) && 0 < k <= |ops| && forall i | 0 < i <= k :: Depth(ops, i) > 0
    ensures k <= j < |ops| && ops[j] == OP_JMP_BCK && Depth(ops, j + 1) == 0
            && forall i | 0 < i <= j :: Depth(ops, i) > 0
    decreases |ops| - k
  {
    assert k < |ops|;
    DepthStep(ops, k);
    if Depth(ops, k + 1) == 0 {
      j := k;
    } else {
      j := FirstReturn(ops, k + 1);
    }
  }

  lemma InnerBalanced(ops: seq<int>, a: nat, part: seq<int>, base: int)
    requires a + |part| <= |ops| && ops[a..a + |part|] == part && Depth(ops, a) == base
    requires Depth(ops, a + |part|) == base
    requires forall k | a <= k <= a + |part| :: Depth(ops, k) >= base
    ensures Balanced(part)
  {
    hide Depth;
    DepthSlice(ops, a, part, |part|);
    forall k | 0 <= k <= |part|
      ensures Depth(part, k) >= 0
    {
      DepthSlice(ops, a, part, k);
      assert Depth(ops, a + k) >= base;
    }
  }

  /** Balanced commands are those of a structured program. */
  lemma {:induction false} TreeOf(ops: seq<int>) returns (cs: seq<Command>)
    requires Balanced(ops) && AllCommands(ops)
    ensures Structured(cs) && Flatten(cs) == ops
    decreases |ops|
  {
    hide Balanced;
    if ops == [] {
      cs := [];
    } else if ops[0] == OP_JMP_FWD {
      var j := SplitLoop(ops);
      var body := TreeOf(ops[1..j]);
      var more := TreeOf(ops[j + 1..]);
      cs := [Loop(body)] + more;
      LoopFlattens(body, more);
    } else {
      SplitBasic(ops);
      var more := TreeOf(ops[1..]);
      cs := [Basic(ops[0])] + more;
      assert cs[1..] == more;
    }
  }

  lemma LoopFlattens(body: seq<Command>, more: seq<Command>)
    requires Structured(body) && Structured(more)
    ensures Structured([Loop(body)] + more)
    ensures Flatten([Loop(body)] + more) == [OP_JMP_FWD] + Flatten(body) + [OP_JMP_BCK] + Flatten(more)
  {
    var cs := [Loop(body)] + more;
    assert cs[1..] == more;
  }

  lemma SplitLoop(ops: seq<int>) returns (j: nat)
    requires Balanced(ops) && ops != [] && ops[0] == OP_JMP_FWD
    ensures 1 <= j < |ops| && ops == [OP_JMP_FWD] + ops[1..j] + [OP_JMP_BCK] + ops[j + 1..]
    ensures Balanced(ops[1..j]) && Balanced(ops[j + 1..])
  {
    hide Depth;
    DepthZero(ops);
    DepthStep(ops, 0);
    j := FirstReturn(ops, 1);
    DepthStep(ops, j);
    InnerBalanced(ops, 1, ops[1..j], 1);
    InnerBalanced(ops, j + 1, ops[j + 1..], 0);
  }

  lemma SplitBasic(ops: seq<int>)
    requires Balanced(ops) && AllCommands(ops) && ops != [] && ops[0] != OP_JMP_FWD
    ensures Simple(ops[0]) && Balanced(ops[1..]) && ops == [ops[0]] + ops[1..]
  {
    hide Depth;
    DepthZero(ops);
    DepthStep(ops, 0);
    assert Depth(ops, 1) >= 0;
    InnerBalanced(ops, 1, ops[1..], 0);
  }

  // ---------------------------------------------------------------- compiled programs run

  /** In a linked program, the code of a structured part is linked as the part asks for. */
  lemma {:induction false} LinkedCode(P: seq<Instruction>, ops: seq<int>, cs: seq<Command>, pc: nat)
    requires Linked(P, ops) && Structured(cs) && pc + Size(cs) <= |ops| && ops[pc..pc + Size(cs)] == Flatten(cs)
    ensures CodeAt(P, pc, cs)
    decreases cs
  {
    hide Linked, Flatten;
    LinkedLength(P, ops);
    if cs != [] {
      match cs[0] {
        case Basic(op) =>
          BasicPart(P, ops, cs, pc);
          LinkedCode(P, ops, cs[1..], pc + 1);
        case Loop(body) =>
          LoopParts(P, ops, cs, pc);
          LinkedCode(P, ops, body, pc + 1);
          LinkedCode(P, ops, cs[1..], pc + 2 + Size(body));
      }
    }
  }

  lemma LinkedLength(P: seq<Instruction>, ops: seq<int>)
    requires Linked(P, ops)
    ensures |ops| < |P|
  {
  }

  lemma BasicPart(P: seq<Instruction>, ops: seq<int>, cs: seq<Command>, pc: nat)
    requires Linked(P, ops) && cs != [] && cs[0].Basic? && pc + Size(cs) <= |ops|
    requires ops[pc..pc + Size(cs)] == Flatten(cs)
    ensures P[pc].operator == cs[0].op && Size(cs) == 1 + Size(cs[1..])
    ensures ops[pc + 1..pc + 1 + Size(cs[1..])] == Flatten(cs[1..])
  {
    hide Depth, Match;
    var f, rest := Flatten(cs), Flatten(cs[1..]);
    assert f[0] == ops[pc];
    assert ops[pc + 1..pc + 1 + |rest|] == f[1..] == rest;
  }

  lemma LoopParts(P: seq<Instruction>, ops: seq<int>, cs: seq<Command>, pc: nat)
    requires Linked(P, ops) && Structured(cs) && cs != [] && cs[0].Loop?
    requires pc + Size(cs) <= |ops| && ops[pc..pc + Size(cs)] == Flatten(cs)
    ensures (var n := Size(cs[0].body);
             && Size(cs) == n + 2 + Size(cs[1..]) && Structured(cs[0].body)
             && ops[pc + 1..pc + 1 + n] == Flatten(cs[0].body)
             && ops[pc + 2 + n..pc + 2 + n + Size(cs[1..])] == Flatten(cs[1..])
             && P[pc] == Instruction(OP_JMP_FWD, pc + 1 + n) && P[pc + 1 + n] == Instruction(OP_JMP_BCK, pc))
  {
    hide Linked, Match, Flatten, Structured, Size, Balanced;
    Structure(cs);
    FlattenLoop(cs);
    var body, rest := cs[0].body, Flatten(cs[1..]);
    var b := Flatten(body);
    LoopSlices(ops, pc, Flatten(cs), b, rest);
    FlattenBalanced(body);
    LoopMatches(ops, pc, b);
    LinkOf(P, ops, pc, pc + 1 + |b|);
  }

  lemma FlattenLoop(cs: seq<Command>)
    requires cs != [] && cs[0].Loop?
    ensures Flatten(cs) == [OP_JMP_FWD] + Flatten(cs[0].body) + [OP_JMP_BCK] + Flatten(cs[1..])
    ensures Size(cs) == Size(cs[0].body) + 2 + Size(cs[1..])
  {
  }

  lemma SubSlice(ops: seq<int>, pc: nat, f: seq<int>, i: nat, j: nat)
    requires pc + |f| <= |ops| && ops[pc..pc + |f|] == f && i <= j <= |f|
    ensures ops[pc + i..pc + j] == f[i..j]
  {
    forall k | i <= k < j
      ensures ops[pc + i..pc + j][k - i] == f[k]
    {
      assert ops[pc..pc + |f|][k] == ops[pc + k];
    }
  }

  lemma LoopSlices(ops: seq<int>, pc: nat, f: seq<int>, b: seq<int>, rest: seq<int>)
    requires pc + |f| <= |ops| && ops[pc..pc + |f|] == f && f == [OP_JMP_FWD] + b + [OP_JMP_BCK] + rest
    ensures ops[pc] == OP_JMP_FWD && ops[pc + 1..pc + 1 + |b|] == b && ops[pc + 1 + |b|] == OP_JMP_BCK
    ensures ops[pc + 2 + |b|..pc + 2 + |b| + |rest|] == rest
  {
    assert f[0] == ops[pc] && f[1 + |b|] == ops[pc + 1 + |b|];
    SubSlice(ops, pc, f, 1, 1 + |b|);
    SubSlice(ops, pc, f, 2 + |b|, |f|);
    assert f[1..1 + |b|] == b && f[2 + |b|..|f|] == rest;
  }

  lemma LinkOf(P: seq<Instruction>, ops: seq<int>, i: nat, j: nat)
    requires Linked(P, ops) && Match(ops, i, j)
    ensures P[i] == Instruction(OP_JMP_FWD, j) && P[j] == Instruction(OP_JMP_BCK, i)
  {
    hide Depth;
    assert Closed(ops, P, i, |ops|);
    MatchUnique(ops, i, j, P[i].operand);
  }

  lemma LoopMatches(ops: seq<int>, pc: nat, b: seq<int>)
    requires pc + 1 + |b| < |ops| && ops[pc] == OP_JMP_FWD && ops[pc + 1..pc + 1 + |b|] == b
    requires ops[pc + 1 + |b|] == OP_JMP_BCK
    requires Balanced(b)
    ensures Match(ops, pc, pc + 1 + |b|)
  {
    hide Depth;
    DepthStep(ops, pc);
    SlicesBalanced(ops, pc + 1, b);
    DepthStep(ops, pc + 1 + |b|);
  }

  /** A compiled program is the code of a structured one. */
  lemma CompiledTree(code: string, P: seq<Instruction>) returns (cs: seq<Command>)
    requires Compilable(Commands(code)) && Linked(P, Commands(code))
    ensures Structured(cs) && Flatten(cs) == Commands(code) && CodeAt(P, 0, cs)
  {
    var ops := Commands(code);
    forall k | 0 <= k <= |ops|
      ensures Depth(ops, k) >= 0
    {
      DepthFits(ops, k);
    }
    cs := TreeOf(ops);
    assert ops[0..|ops|] == ops;
    LinkedCode(P, ops, cs, 0);
  }

  /**
   * Compiling and executing is running the source's loops: the machine stops exactly when the structured program ends,
   * in the same state.
   */
  lemma CompiledRuns(code: string, P: seq<Instruction>, cs: seq<Command>, input: seq<int>, t: Tape)
    requires Linked(P, Commands(code)) && Structured(cs) && Flatten(cs) == Commands(code) && TapeOK(t)
    ensures forall r :: Stops(P, input, t, r) <==> Ends(cs, input, t, r)
  {
    hide Linked, CodeAt, TapeOK, Flatten, Commands, Stops, Structured, Ends;
    var ops := Commands(code);
    assert ops[0..|ops|] == ops;
    LinkedCode(P, ops, cs, 0);
    EndMark(P, ops);
    forall r
      ensures Stops(P, input, t, r) <==> Ends(cs, input, t, r)
    {
      RunStops(P, cs, input, t, r);
    }
  }

  /** The structured program ends with tape r. */
  ghost predicate Ends(cs: seq<Command>, input: seq<int>, t: Tape, r: Tape)
    requires TapeOK(t) && Structured(cs)
  {
    exists fuel: nat :: Exec(cs, input, t, fuel) == Some(r)
  }

  lemma EndMark(P: seq<Instruction>, ops: seq<int>)
    requires Linked(P, ops)
    ensures |ops| < |P| && P[|ops|].operator == OP_END
  {
  }

  lemma RunStops(P: seq<Instruction>, cs: seq<Command>, input: seq<int>, t: Tape, r: Tape)
    requires Structured(cs) && TapeOK(t) && CodeAt(P, 0, cs) && Size(cs) < |P| && P[Size(cs)].operator == OP_END
    ensures Stops(P, input, t, r) <==> Ends(cs, input, t, r)
  {
    hide Exec, Steps, CodeAt, TapeOK;
    if Ends(cs, input, t, r) {
      var fuel: nat :| Exec(cs, input, t, fuel) == Some(r);
      var n := Simulates(P, input, 0, cs, t, fuel);
      assert !Running(P, Steps(P, input, Machine(0, t), n));
    }
    if Stops(P, input, t, r) {
      var n: nat :| !Running(P, Steps(P, input, Machine(0, t), n)) && Steps(P, input, Machine(0, t), n).tape == r;
      var fuel, k := Terminates(P, input, 0, cs, t, n);
      var m := Steps(P, input, Machine(0, t), k);
      StepsAdd(P, input, Machine(0, t), k, n - k);
      Stuck(P, input, m, n - k);
      assert Exec(cs, input, t, fuel) == Some(r);
    }
  }

  /** The execution of P from its first instruction ends with tape r. */
  ghost predicate Stops(P: seq<Instruction>, input: seq<int>, t: Tape, r: Tape)
    requires TapeOK(t)
  {
    exists n: nat :: !Running(P, Steps(P, input, Machine(0, t), n)) && Steps(P, input, Machine(0, t), n).tape == r
  }
}
