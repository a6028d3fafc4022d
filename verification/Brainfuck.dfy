/** The Brainfuck executor (bf.c, execute_bf) runs the structured loops of the source. */
module Brainfuck {
  import opened Bits
  import opened Options

  const OP_END := 0
  const OP_INC_DP := 1
  const OP_DEC_DP := 2
  const OP_INC_VAL := 3
  const OP_DEC_VAL := 4
  const OP_OUT := 5
  const OP_IN := 6
  const OP_JMP_FWD := 7
  const OP_JMP_BCK := 8

  const DATA_SIZE := 4096

  /** Both fields are unsigned shorts. */
  datatype Instruction = Instruction(operator: nat, operand: nat)

  /** data holds unsigned shorts; ptr is an unsigned int. */
  datatype Tape = Tape(data: seq<int>, ptr: nat, read: nat, output: seq<int>)

  ghost predicate TapeOK(t: Tape) {
    |t.data| == DATA_SIZE && t.ptr < W && forall i | 0 <= i < DATA_SIZE :: 0 <= t.data[i] < 0x1_0000
  }

  /** execute_bf stops as soon as the data pointer leaves the array, bf.c:110. */
  predicate InRange(t: Tape) {
    t.ptr < DATA_SIZE
  }

  predicate Simple(op: int) {
    OP_INC_DP <= op <= OP_IN
  }

  /** bf.c:112-117; an input byte past the end reads as 0. */
  function Do(op: int, input: seq<int>, t: Tape): (r: Tape)
    requires TapeOK(t) && InRange(t) && Simple(op)
    ensures TapeOK(r)
  {
    if op == OP_INC_DP then t.(ptr := (t.ptr + 1) % W)
    else if op == OP_DEC_DP then t.(ptr := (t.ptr - 1) % W)
    else if op == OP_INC_VAL then t.(data := t.data[t.ptr := (t.data[t.ptr] + 1) % 0x1_0000])
    else if op == OP_DEC_VAL then t.(data := t.data[t.ptr := (t.data[t.ptr] - 1) % 0x1_0000])
    else if op == OP_OUT then t.(output := t.output + [t.data[t.ptr] % 0x100])
    else t.(data := t.data[t.ptr := (if t.read < |input| then input[t.read] else 0) % 0x1_0000], read := t.read + 1)
  }

  // ---------------------------------------------------------------- structured programs

  datatype Command = Basic(op: int) | Loop(body: seq<Command>)

  ghost predicate Structured(cs: seq<Command>) {
    forall i | 0 <= i < |cs| :: match cs[i] case Basic(op) => Simple(op) case Loop(body) => Structured(body)
  }

  /** Loops run while the current cell is not zero; outside the array nothing runs any more. None: out of fuel. */
  function Exec(cs: seq<Command>, input: seq<int>, t: Tape, fuel: nat): (r: Option<Tape>)
    requires TapeOK(t) && Structured(cs)
    ensures r.Some? ==> TapeOK(r.value)
    decreases fuel, |cs|
  {
    if cs == [] || !InRange(t) then Some(t)
    else
      match cs[0]
      case Basic(op) => Exec(cs[1..], input, Do(op, input, t), fuel)
      case Loop(body) =>
        if t.data[t.ptr] == 0 then Exec(cs[1..], input, t, fuel)
        else if fuel == 0 then None
        else
          var r := Exec(body, input, t, fuel - 1);
          if r.None? then None else Exec(cs, input, r.value, fuel - 1)
  }

  lemma {:induction false} MoreFuel(cs: seq<Command>, input: seq<int>, t: Tape, fuel: nat, more: nat)
    requires TapeOK(t) && Structured(cs) && Exec(cs, input, t, fuel).Some? && fuel <= more
    ensures Exec(cs, input, t, more) == Exec(cs, input, t, fuel)
    decreases fuel, |cs|
  {
    hide Do;
    if cs != [] && InRange(t) {
      match cs[0] {
        case Basic(op) => MoreFuel(cs[1..], input, Do(op, input, t), fuel, more);
        case Loop(body) =>
          if t.data[t.ptr] == 0 {
            MoreFuel(cs[1..], input, t, fuel, more);
          } else {
            MoreFuel(body, input, t, fuel - 1, more - 1);
            MoreFuel(cs, input, Exec(body, input, t, fuel - 1).value, fuel - 1, more - 1);
          }
      }
    }
  }

  // ---------------------------------------------------------------- the machine

  datatype Machine = Machine(pc: nat, tape: Tape)

  /** The loop condition of bf.c:110; an unknown operator returns, bf.c:120. */
  predicate Running(P: seq<Instruction>, m: Machine) {
    m.pc < |P| && OP_INC_DP <= P[m.pc].operator <= OP_JMP_BCK && InRange(m.tape)
  }

  /** One turn of the loop, bf.c:111-122. */
  function Step(P: seq<Instruction>, input: seq<int>, m: Machine): (r: Machine)
    requires TapeOK(m.tape) && Running(P, m)
    ensures TapeOK(r.tape)
  {
    var i := P[m.pc];
    if i.operator == OP_JMP_FWD then
      Machine((if m.tape.data[m.tape.ptr] == 0 then i.operand else m.pc) + 1, m.tape)
    else if i.operator == OP_JMP_BCK then
      Machine((if m.tape.data[m.tape.ptr] != 0 then i.operand else m.pc) + 1, m.tape)
    else Machine(m.pc + 1, Do(i.operator, input, m.tape))
  }

  /** At most n turns. */
  function Steps(P: seq<Instruction>, input: seq<int>, m: Machine, n: nat): (r: Machine)
    requires TapeOK(m.tape)
    ensures TapeOK(r.tape)
    decreases n
  {
    if n == 0 || !Running(P, m) then m else Steps(P, input, Step(P, input, m), n - 1)
  }

  lemma {:induction false} StepsAdd(P: seq<Instruction>, input: seq<int>, m: Machine, n: nat, k: nat)
    requires TapeOK(m.tape)
    ensures Steps(P, input, m, n + k) == Steps(P, input, Steps(P, input, m, n), k)
    decreases n
  {
    hide TapeOK, Step;
    if n > 0 && Running(P, m) {
      StepsAdd(P, input, Step(P, input, m), n - 1, k);
    }
  }

  // ---------------------------------------------------------------- code for structured programs

  function Size(cs: seq<Command>): (n: nat)
    ensures cs != [] ==> n > 0
  {
    if cs == [] then 0
    else (match cs[0] case Basic(op) => 1 case Loop(body) => Size(body) + 2) + Size(cs[1..])
  }

  /** The instructions from pc on are those of cs, with the brackets linked. */
  ghost predicate CodeAt(P: seq<Instruction>, pc: nat, cs: seq<Command>)
    decreases cs
  {
    pc + Size(cs) < |P| &&
    (cs != [] ==>
       match cs[0]
       case Basic(op) => P[pc].operator == op && CodeAt(P, pc + 1, cs[1..])
       case Loop(body) =>
         var close := pc + 1 + Size(body);
         && P[pc] == Instruction(OP_JMP_FWD, close) && CodeAt(P, pc + 1, body)
         && close < |P| && P[close] == Instruction(OP_JMP_BCK, pc) && CodeAt(P, close + 1, cs[1..]))
  }

  /** The machine has done cs, which started at pc, in state t: it is behind it, or stopped with t out of range. */
  predicate Done(m: Machine, pc: nat, cs: seq<Command>, t: Tape) {
    m.tape == t && (InRange(t) ==> m.pc == pc + Size(cs))
  }

  lemma OneStep(P: seq<Instruction>, input: seq<int>, m: Machine, n: nat)
    requires TapeOK(m.tape) && Running(P, m)
    ensures Steps(P, input, m, n + 1) == Steps(P, input, Step(P, input, m), n)
  {
  }

  /** From the closing bracket the machine goes where it would go from the opening one. */
  lemma BracketsAlike(P: seq<Instruction>, input: seq<int>, pc: nat, close: nat, t: Tape, n: nat)
    requires TapeOK(t) && pc < close < |P| && n > 0
    requires P[pc] == Instruction(OP_JMP_FWD, close) && P[close] == Instruction(OP_JMP_BCK, pc)
    ensures InRange(t) ==> Steps(P, input, Machine(close, t), n) == Steps(P, input, Machine(pc, t), n)
  {
  }

  lemma NoSteps(P: seq<Instruction>, input: seq<int>, m: Machine)
    requires TapeOK(m.tape)
    ensures Steps(P, input, m, 0) == m
  {
  }

  lemma BasicStep(P: seq<Instruction>, input: seq<int>, pc: nat, t: Tape)
    requires TapeOK(t) && InRange(t) && pc < |P| && Simple(P[pc].operator)
    ensures Running(P, Machine(pc, t))
    ensures Step(P, input, Machine(pc, t)) == Machine(pc + 1, Do(P[pc].operator, input, t))
  {
    hide Do;
  }

  lemma SkipLoop(P: seq<Instruction>, input: seq<int>, pc: nat, close: nat, t: Tape)
    requires TapeOK(t) && InRange(t) && pc < |P| && P[pc] == Instruction(OP_JMP_FWD, close)
    requires t.data[t.ptr] == 0
    ensures Running(P, Machine(pc, t)) && Step(P, input, Machine(pc, t)) == Machine(close + 1, t)
  {
  }

  /** Whatever the structured program does, the machine does. */
  lemma {:induction false} Simulates(P: seq<Instruction>, input: seq<int>, pc: nat, cs: seq<Command>, t: Tape,
                                     fuel: nat)
    returns (n: nat)
    requires TapeOK(t) && Structured(cs) && CodeAt(P, pc, cs) && Exec(cs, input, t, fuel).Some?
    ensures Done(Steps(P, input, Machine(pc, t), n), pc, cs, Exec(cs, input, t, fuel).value)
    decreases fuel, |cs|
  {
    hide Do, Steps, Step;
    var m := Machine(pc, t);
    if cs == [] || !InRange(t) {
      n := 0;
      NoSteps(P, input, m);
    } else {
      match cs[0] {
        case Basic(op) =>
          BasicStep(P, input, pc, t);
          var t1 := Do(op, input, t);
          var k := Simulates(P, input, pc + 1, cs[1..], t1, fuel);
          n := k + 1;
          OneStep(P, input, m, k);
        case Loop(body) =>
          var close := pc + 1 + Size(body);
          if t.data[t.ptr] == 0 {
            var k := Simulates(P, input, close + 1, cs[1..], t, fuel);
            n := k + 1;
            OneStep(P, input, m, k);
            SkipLoop(P, input, pc, close, t);
          } else {
            var k := Simulates(P, input, pc + 1, body, t, fuel - 1);
            var t1 := Exec(body, input, t, fuel - 1).value;
            var j := Simulates(P, input, pc, cs, t1, fuel - 1);
            if j == 0 {
              NoSteps(P, input, Machine(pc, t1));
            }
            n := LoopTurn(P, input, pc, close, t, t1, k, if j == 0 then 0 else j - 1);
            if !InRange(t1) {
              Stuck(P, input, Machine(pc, t1), j);
              Stuck(P, input, Machine(pc, t1), (if j == 0 then 0 else j - 1) + 1);
            }
          }
      }
    }
  }

  /** One turn of a loop, k steps for its body, then j steps as from its start. */
  lemma LoopTurn(P: seq<Instruction>, input: seq<int>, pc: nat, close: nat, t: Tape, t1: Tape, k: nat, j: nat)
    returns (n: nat)
    requires TapeOK(t) && TapeOK(t1) && InRange(t) && t.data[t.ptr] != 0 && pc < close < |P|
    requires P[pc] == Instruction(OP_JMP_FWD, close) && P[close] == Instruction(OP_JMP_BCK, pc)
    requires Steps(P, input, Machine(pc + 1, t), k).tape == t1
    requires InRange(t1) ==> Steps(P, input, Machine(pc + 1, t), k).pc == close
    ensures Steps(P, input, Machine(pc, t), n).tape == Steps(P, input, Machine(pc, t1), j + 1).tape
    ensures InRange(t1) ==> Steps(P, input, Machine(pc, t), n) == Steps(P, input, Machine(pc, t1), j + 1)
    ensures n == k + j + 2
  {
    hide Steps;
    n := k + 1 + (j + 1);
    OneStep(P, input, Machine(pc, t), k + (j + 1));
    StepsAdd(P, input, Machine(pc + 1, t), k, j + 1);
    var m := Steps(P, input, Machine(pc + 1, t), k);
    if InRange(t1) {
      BracketsAlike(P, input, pc, close, t1, j + 1);
    } else {
      Stuck(P, input, m, j + 1);
      Stuck(P, input, Machine(pc, t1), j + 1);
    }
  }

  lemma Stuck(P: seq<Instruction>, input: seq<int>, m: Machine, n: nat)
    requires TapeOK(m.tape) && !Running(P, m)
    ensures Steps(P, input, m, n) == m
  {
  }

  /** When the machine stops, the structured program ends, with the same state. */
  lemma {:induction false} Terminates(P: seq<Instruction>, input: seq<int>, pc: nat, cs: seq<Command>, t: Tape, n: nat)
    returns (fuel: nat, k: nat)
    requires TapeOK(t) && Structured(cs) && CodeAt(P, pc, cs) && !Running(P, Steps(P, input, Machine(pc, t), n))
    ensures k <= n && Exec(cs, input, t, fuel).Some?
    ensures Done(Steps(P, input, Machine(pc, t), k), pc, cs, Exec(cs, input, t, fuel).value)
    decreases n, |cs|
  {
    hide Do, Steps, Step, Exec;
    var m := Machine(pc, t);
    NoSteps(P, input, m);
    if cs == [] || !InRange(t) {
      fuel, k := 0, 0;
      ExecNothing(cs, input, t, 0);
    } else {
      Structure(cs);
      match cs[0] {
        case Basic(op) =>
          BasicStep(P, input, pc, t);
          OneStep(P, input, m, n - 1);
          var t1 := Do(op, input, t);
          var j;
          fuel, j := Terminates(P, input, pc + 1, cs[1..], t1, n - 1);
          ExecBasic(cs, input, t, fuel);
          k := j + 1;
          OneStep(P, input, m, j);
        case Loop(body) =>
          var close := pc + 1 + Size(body);
          if t.data[t.ptr] == 0 {
            SkipLoop(P, input, pc, close, t);
            OneStep(P, input, m, n - 1);
            var j;
            fuel, j := Terminates(P, input, close + 1, cs[1..], t, n - 1);
            ExecSkip(cs, input, t, fuel);
            k := j + 1;
            OneStep(P, input, m, j);
          } else {
            EnterLoop(P, input, pc, close, t);
            OneStep(P, input, m, n - 1);
            var f1, k1 := Terminates(P, input, pc + 1, body, t, n - 1);
            var t1 := Exec(body, input, t, f1).value;
            if InRange(t1) {
              NextTurn(P, input, pc, close, t, t1, n - 1, k1);
              var f2, k2 := Terminates(P, input, pc, cs, t1, n - 1 - k1);
              NoSteps(P, input, Machine(pc, t1));
              k := LoopTurn(P, input, pc, close, t, t1, k1, k2 - 1);
              fuel := ExecTurn(cs, input, t, f1, f2);
            } else {
              k := k1 + 1;
              OneStep(P, input, m, k1);
              ExecNothing(cs, input, t1, 0);
              fuel := ExecTurn(cs, input, t, f1, 0);
            }
          }
      }
    }
  }

  lemma Structure(cs: seq<Command>)
    requires Structured(cs) && cs != []
    ensures Structured(cs[1..]) && match cs[0] case Basic(op) => Simple(op) case Loop(body) => Structured(body)
  {
  }

  lemma ExecNothing(cs: seq<Command>, input: seq<int>, t: Tape, fuel: nat)
    requires TapeOK(t) && Structured(cs) && (cs == [] || !InRange(t))
    ensures Exec(cs, input, t, fuel) == Some(t)
  {
  }

  lemma ExecBasic(cs: seq<Command>, input: seq<int>, t: Tape, fuel: nat)
    requires TapeOK(t) && Structured(cs) && cs != [] && InRange(t) && cs[0].Basic?
    ensures Exec(cs, input, t, fuel) == Exec(cs[1..], input, Do(cs[0].op, input, t), fuel)
  {
    hide Do;
  }

  lemma ExecSkip(cs: seq<Command>, input: seq<int>, t: Tape, fuel: nat)
    requires TapeOK(t) && Structured(cs) && cs != [] && InRange(t) && cs[0].Loop? && t.data[t.ptr] == 0
    ensures Exec(cs, input, t, fuel) == Exec(cs[1..], input, t, fuel)
  {
  }

  /** Enough fuel for one turn and the rest. */
  lemma ExecTurn(cs: seq<Command>, input: seq<int>, t: Tape, f1: nat, f2: nat) returns (fuel: nat)
    requires TapeOK(t) && Structured(cs) && cs != [] && InRange(t) && cs[0].Loop? && t.data[t.ptr] != 0
    requires Structured(cs[0].body) && Exec(cs[0].body, input, t, f1).Some?
    requires Exec(cs, input, Exec(cs[0].body, input, t, f1).value, f2).Some?
    ensures Exec(cs, input, t, fuel) == Exec(cs, input, Exec(cs[0].body, input, t, f1).value, f2)
  {
    var body, t1 := cs[0].body, Exec(cs[0].body, input, t, f1).value;
    fuel := if f1 < f2 then f2 + 1 else f1 + 1;
    MoreFuel(body, input, t, f1, fuel - 1);
    MoreFuel(cs, input, t1, f2, fuel - 1);
  }

  lemma EnterLoop(P: seq<Instruction>, input: seq<int>, pc: nat, close: nat, t: Tape)
    requires TapeOK(t) && InRange(t) && pc < |P| && P[pc] == Instruction(OP_JMP_FWD, close)
    requires t.data[t.ptr] != 0
    ensures Running(P, Machine(pc, t)) && Step(P, input, Machine(pc, t)) == Machine(pc + 1, t)
  {
  }

  /** The steps left at the closing bracket are steps from the opening one. */
  lemma NextTurn(P: seq<Instruction>, input: seq<int>, pc: nat, close: nat, t: Tape, t1: Tape, n: nat, k: nat)
    requires TapeOK(t) && TapeOK(t1) && InRange(t1) && pc < close < |P| && k <= n
    requires P[pc] == Instruction(OP_JMP_FWD, close) && P[close] == Instruction(OP_JMP_BCK, pc)
    requires Steps(P, input, Machine(pc + 1, t), k) == Machine(close, t1)
    requires !Running(P, Steps(P, input, Machine(pc + 1, t), n))
    ensures k < n && !Running(P, Steps(P, input, Machine(pc, t1), n - k))
  {
    hide Step, Steps;
    StepsAdd(P, input, Machine(pc + 1, t), k, n - k);
    NoSteps(P, input, Machine(close, t1));
    assert Running(P, Machine(close, t1));
    BracketsAlike(P, input, pc, close, t1, n - k);
  }

  /** execute_bf, bf.c:108-124, for at most the given number of turns of its loop. */
  method Execute(program: array<Instruction>, input: seq<int>, data: array<int>, turns: nat)
    returns (pc: nat, ptr: nat, read: nat, output: seq<int>, stopped: bool)
    requires TapeOK(Tape(data[..], 0, 0, []))
    modifies data
    ensures TapeOK(Tape(data[..], ptr, read, output))
    ensures Machine(pc, Tape(data[..], ptr, read, output))
         == Steps(program[..], input, Machine(0, Tape(old(data[..]), 0, 0, [])), turns)
    ensures stopped <==> !Running(program[..], Machine(pc, Tape(data[..], ptr, read, output)))
  {
    ghost var P, start := program[..], Machine(0, Tape(data[..], 0, 0, []));
    pc, ptr, read, output := 0, 0, 0, [];
    var k := 0;
    while k < turns && Running(program[..], Machine(pc, Tape(data[..], ptr, read, output)))
      invariant 0 <= k <= turns && program[..] == P && data.Length == DATA_SIZE
      invariant TapeOK(Tape(data[..], ptr, read, output))
      invariant Steps(P, input, Machine(pc, Tape(data[..], ptr, read, output)), turns - k)
                  == Steps(P, input, start, turns)
    {
      ghost var m := Machine(pc, Tape(data[..], ptr, read, output));
      OneStep(P, input, m, turns - k - 1);
      var op := program[pc].operator;
      if op == OP_INC_DP {
        ptr := (ptr + 1) % W;
      } else if op == OP_DEC_DP {
        ptr := (ptr - 1) % W;
      } else if op == OP_INC_VAL {
        data[ptr] := (data[ptr] + 1) % 0x1_0000;
      } else if op == OP_DEC_VAL {
        data[ptr] := (data[ptr] - 1) % 0x1_0000;
      } else if op == OP_OUT {
        output := output + [data[ptr] % 0x100];
      } else if op == OP_IN {
        data[ptr] := (if read < |input| then input[read] else 0) % 0x1_0000;
        read := read + 1;
      } else if op == OP_JMP_FWD {
        if data[ptr] == 0 {
          pc := program[pc].operand;
        }
      } else {
        if data[ptr] != 0 {
          pc := program[pc].operand;
        }
      }
      pc := pc + 1;
      k := k + 1;
      assert Machine(pc, Tape(data[..], ptr, read, output)) == Step(P, input, m);
    }
    stopped := !Running(program[..], Machine(pc, Tape(data[..], ptr, read, output)));
  }
}
