/** What a Brainfuck text means, character by character, and that its compiled form does that (bf.c). */
module BfSource {
  import opened Bits
  import opened Options
  import opened Brainfuck
  import opened BfCompile

  /** A text: single characters, and bracketed parts. */
  datatype Item = Act(c: char) | Repeat(body: seq<Item>)

  function Text(items: seq<Item>): string
    decreases items
  {
    if items == [] then ""
    else (match items[0] case Act(c) => [c] case Repeat(body) => "[" + Text(body) + "]") + Text(items[1..])
  }

  /** Brackets come in pairs only. */
  ghost predicate Source(items: seq<Item>) {
    forall i | 0 <= i < |items| ::
      match items[i] case Act(c) => c != '[' && c != ']' case Repeat(body) => Source(body)
  }

  /** One character: the pointer moves, the cell counts, a byte goes out or comes in; anything else is a comment. */
  function Perform(c: char, input: seq<int>, t: Tape): (r: Tape)
    requires TapeOK(t) && t.ptr < 4096
    ensures TapeOK(r)
  {
    var cell := t.data[t.ptr];
    match c
    case '>' => t.(ptr := t.ptr + 1)
    case '<' => t.(ptr := if t.ptr == 0 then 0xffff_ffff else t.ptr - 1)
    case '+' => t.(data := t.data[t.ptr := if cell == 0xffff then 0 else cell + 1])
    case '-' => t.(data := t.data[t.ptr := if cell == 0 then 0xffff else cell - 1])
    case '.' => t.(output := t.output + [cell % 256])
    case ',' =>
      var byte := if t.read < |input| then input[t.read] % 0x1_0000 else 0;
      t.(data := t.data[t.ptr := byte], read := t.read + 1)
    case _ => t
  }

  /**
   * A bracketed part is repeated while the cell under the pointer is not zero; a pointer off the tape ends everything.
   * None: more than fuel turns and levels of loops.
   */
  function Meaning(items: seq<Item>, input: seq<int>, t: Tape, fuel: nat): (r: Option<Tape>)
    requires TapeOK(t)
    ensures r.Some? ==> TapeOK(r.value)
    decreases fuel, |items|
  {
    if items == [] || t.ptr >= 4096 then Some(t)
    else
      match items[0]
      case Act(c) => Meaning(items[1..], input, Perform(c, input, t), fuel)
      case Repeat(body) =>
        if t.data[t.ptr] == 0 then Meaning(items[1..], input, t, fuel)
        else if fuel == 0 then None
        else
          var r := Meaning(body, input, t, fuel - 1);
          if r.None? then None else Meaning(items, input, r.value, fuel - 1)
  }

  /** The text's run ends with tape r. */
  ghost predicate EndsWith(items: seq<Item>, input: seq<int>, t: Tape, r: Tape)
    requires TapeOK(t)
  {
    exists fuel: nat :: Meaning(items, input, t, fuel) == Some(r)
  }

  // ---------------------------------------------------------------- as commands

  function ToCommands(items: seq<Item>): seq<Command>
    decreases items
  {
    if items == [] then []
    else
      (match items[0]
       case Act(c) => if OpOf(c) == OP_END then [] else [Basic(OpOf(c))]
       case Repeat(body) => [Loop(ToCommands(body))]) + ToCommands(items[1..])
  }

  lemma SourceHead(items: seq<Item>)
    requires Source(items) && items != []
    ensures Source(items[1..])
    ensures match items[0] case Act(c) => c != '[' && c != ']' case Repeat(body) => Source(body)
  {
  }

  lemma PlainOp(c: char)
    requires c != '[' && c != ']'
    ensures OpOf(c) == OP_END || Simple(OpOf(c))
  {
  }

  lemma {:induction false} ToStructured(items: seq<Item>)
    requires Source(items)
    ensures Structured(ToCommands(items))
    decreases items
  {
    hide OpOf, Source;
    if items != [] {
      SourceHead(items);
      ToStructured(items[1..]);
      var rest := ToCommands(items[1..]);
      match items[0] {
        case Act(c) =>
          PlainOp(c);
          if OpOf(c) != OP_END {
            Prepend(Basic(OpOf(c)), rest);
          } else {
            assert ToCommands(items) == rest;
          }
        case Repeat(body) =>
          ToStructured(body);
          Prepend(Loop(ToCommands(body)), rest);
      }
    }
  }

  lemma Prepend(x: Command, rest: seq<Command>)
    requires Structured(rest) && match x case Basic(op) => Simple(op) case Loop(body) => Structured(body)
    ensures Structured([x] + rest)
  {
  }

  lemma {:induction false} CommandsAppend(a: string, b: string)
    ensures Commands(a + b) == Commands(a) + Commands(b)
    decreases |b|
  {
    hide OpOf;
    if b == [] {
      assert a + b == a;
    } else {
      assert (a + b)[..|a + b| - 1] == a + b[..|b| - 1];
      CommandsAppend(a, b[..|b| - 1]);
    }
  }

  lemma CommandsOne(c: char)
    ensures Commands([c]) == if OpOf(c) == OP_END then [] else [OpOf(c)]
  {
    hide OpOf;
    assert [c][..0] == [];
  }

  /** The characters are the commands, in order. */
  lemma {:induction false} FlattenText(items: seq<Item>)
    requires Source(items)
    ensures Flatten(ToCommands(items)) == Commands(Text(items))
    decreases items
  {
    hide Source, Commands, OpOf;
    if items == [] {
      NoCommands();
    } else {
      SourceHead(items);
      FlattenText(items[1..]);
      var rest := ToCommands(items[1..]);
      match items[0] {
        case Act(c) =>
          CommandsAppend([c], Text(items[1..]));
          CommandsOne(c);
          if OpOf(c) != OP_END {
            FlattenBasic(OpOf(c), rest);
          } else {
            assert ToCommands(items) == rest;
          }
        case Repeat(body) =>
          FlattenText(body);
          TextLoop(Text(body), Text(items[1..]));
          FlattenRepeat(ToCommands(body), rest);
      }
    }
  }

  lemma NoCommands()
    ensures Commands("") == []
  {
  }

  lemma FlattenBasic(op: nat, rest: seq<Command>)
    ensures Flatten([Basic(op)] + rest) == [op] + Flatten(rest)
  {
    assert ([Basic(op)] + rest)[1..] == rest;
  }

  lemma FlattenRepeat(body: seq<Command>, rest: seq<Command>)
    ensures Flatten([Loop(body)] + rest) == [OP_JMP_FWD] + Flatten(body) + [OP_JMP_BCK] + Flatten(rest)
  {
    assert ([Loop(body)] + rest)[1..] == rest;
  }

  lemma TextLoop(b: string, rest: string)
    ensures Commands("[" + b + "]" + rest) == [OP_JMP_FWD] + Commands(b) + [OP_JMP_BCK] + Commands(rest)
  {
    hide Commands;
    CommandsAppend(['['] + b + [']'], rest);
    CommandsAppend(['['] + b, [']']);
    CommandsAppend(['['], b);
    CommandsOne('[');
    CommandsOne(']');
  }

  /** A command does what its character does. */
  lemma SameAct(c: char, input: seq<int>, t: Tape)
    requires c != '[' && c != ']' && TapeOK(t) && InRange(t)
    ensures if OpOf(c) == OP_END then Perform(c, input, t) == t
            else Simple(OpOf(c)) && Do(OpOf(c), input, t) == Perform(c, input, t)
  {
  }

  lemma {:induction false} SameMeaning(items: seq<Item>, input: seq<int>, t: Tape, fuel: nat)
    requires Source(items) && Structured(ToCommands(items)) && TapeOK(t)
    ensures Exec(ToCommands(items), input, t, fuel) == Meaning(items, input, t, fuel)
    decreases fuel, |items|
  {
    hide OpOf, Do, Perform, Source, Structured;
    if items != [] && InRange(t) {
      SourceHead(items);
      var cs, rest := ToCommands(items), ToCommands(items[1..]);
      ToStructured(items[1..]);
      match items[0] {
        case Act(c) =>
          SameAct(c, input, t);
          SameMeaning(items[1..], input, Perform(c, input, t), fuel);
          if OpOf(c) == OP_END {
            assert cs == rest;
          } else {
            assert cs == [Basic(OpOf(c))] + rest && cs[1..] == rest;
          }
        case Repeat(body) =>
          ToStructured(body);
          assert cs == [Loop(ToCommands(body))] + rest && cs[1..] == rest;
          if t.data[t.ptr] == 0 {
            SameMeaning(items[1..], input, t, fuel);
          } else if fuel > 0 {
            SameMeaning(body, input, t, fuel - 1);
            var r := Meaning(body, input, t, fuel - 1);
            if r.Some? {
              SameMeaning(items, input, r.value, fuel - 1);
            }
          }
      }
    }
  }

  /**
   * The compiled text, run by the machine, does what the text means: it stops exactly when the text's run ends, with
   * the same tape.
   */
  lemma CompiledText(items: seq<Item>, P: seq<Instruction>, input: seq<int>, t: Tape)
    requires Source(items) && Linked(P, Commands(Text(items))) && TapeOK(t)
    ensures forall r :: Stops(P, input, t, r) <==> EndsWith(items, input, t, r)
  {
    hide Linked, Stops, Commands, Meaning, Exec, TapeOK, Source, Structured;
    var cs := ToCommands(items);
    ToStructured(items);
    FlattenText(items);
    CompiledRuns(Text(items), P, cs, input, t);
    forall r
      ensures Ends(cs, input, t, r) <==> EndsWith(items, input, t, r)
    {
      forall fuel: nat
        ensures Exec(cs, input, t, fuel) == Meaning(items, input, t, fuel)
      {
        SameMeaning(items, input, t, fuel);
      }
    }
  }

  // ---------------------------------------------------------------- every compilable text has a meaning

  /** Where in the text the command between a and b stands. */
  lemma {:induction false} CutAt(code: string, a: seq<int>, op: int, b: seq<int>) returns (k: nat)
    requires Commands(code) == a + [op] + b
    ensures k < |code| && Commands(code[..k]) == a && OpOf(code[k]) == op && Commands(code[k + 1..]) == b
    decreases |code|
  {
    hide OpOf, Commands;
    if code == [] {
      NoCommands();
      assert false;
    }
    var c, rest := code[0], code[1..];
    assert code == [c] + rest;
    CommandsAppend([c], rest);
    CommandsOne(c);
    if OpOf(c) == OP_END {
      var i := CutAt(rest, a, op, b);
      k := i + 1;
      assert code[..k] == [c] + rest[..k - 1];
      CommandsAppend([c], rest[..k - 1]);
    } else {
      assert (a + [op] + b)[0] == OpOf(c) && (a + [op] + b)[1..] == Commands(rest);
      if a == [] {
        k := 0;
        NoCommands();
        assert ([op] + b)[1..] == b && a + [op] + b == [op] + b;
      } else {
        assert a == [OpOf(c)] + a[1..] && a + [op] + b == [OpOf(c)] + (a[1..] + [op] + b);
        var i := CutAt(rest, a[1..], op, b);
        k := i + 1;
        assert code[..k] == [c] + rest[..k - 1];
        CommandsAppend([c], rest[..k - 1]);
      }
    }
  }

  lemma BracketOps(c: char)
    ensures OpOf(c) == OP_JMP_FWD <==> c == '['
    ensures OpOf(c) == OP_JMP_BCK <==> c == ']'
  {
  }

  /** The structured program's commands, with the comments put back. */
  lemma {:induction false} Annotate(code: string, cs: seq<Command>) returns (items: seq<Item>)
    requires Structured(cs) && Flatten(cs) == Commands(code)
    ensures Source(items) && Text(items) == code
    decreases |code|
  {
    hide OpOf, Commands, Structured, Flatten, Source, Text;
    FlattenEmpty(cs);
    if code == [] {
      NoCommands();
      NoItems();
      items := [];
    } else {
      var c, rest := code[0], code[1..];
      assert code == [c] + rest;
      CommandsAppend([c], rest);
      CommandsOne(c);
      BracketOps(c);
      if OpOf(c) == OP_END {
        var more := Annotate(rest, cs);
        items := [Act(c)] + more;
        TextAct(c, more);
      } else {
        Structure(cs);
        assert Commands(code)[0] == OpOf(c) && Commands(code)[1..] == Commands(rest);
        match cs[0] {
          case Basic(op) =>
            assert [cs[0]] + cs[1..] == cs;
            FlattenBasic(op, cs[1..]);
            var more := Annotate(rest, cs[1..]);
            items := [Act(c)] + more;
            TextAct(c, more);
          case Loop(body) =>
            assert [cs[0]] + cs[1..] == cs;
            FlattenRepeat(body, cs[1..]);
            assert Commands(rest) == Flatten(body) + [OP_JMP_BCK] + Flatten(cs[1..]);
            var k := CutAt(rest, Flatten(body), OP_JMP_BCK, Flatten(cs[1..]));
            BracketOps(rest[k]);
            var inner := Annotate(rest[..k], body);
            var more := Annotate(rest[k + 1..], cs[1..]);
            items := [Repeat(inner)] + more;
            TextRepeat(inner, more);
            assert rest == rest[..k] + [']'] + rest[k + 1..];
        }
      }
    }
  }

  lemma FlattenEmpty(cs: seq<Command>)
    ensures Flatten(cs) == [] <==> cs == []
  {
  }

  lemma NoItems()
    ensures Source([]) && Text([]) == ""
  {
  }

  lemma TextAct(c: char, more: seq<Item>)
    requires c != '[' && c != ']' && Source(more)
    ensures Source([Act(c)] + more) && Text([Act(c)] + more) == [c] + Text(more)
  {
    assert ([Act(c)] + more)[1..] == more;
  }

  lemma TextRepeat(inner: seq<Item>, more: seq<Item>)
    requires Source(inner) && Source(more)
    ensures Source([Repeat(inner)] + more)
    ensures Text([Repeat(inner)] + more) == ['['] + (Text(inner) + [']'] + Text(more))
  {
    assert ([Repeat(inner)] + more)[1..] == more;
  }

  /** A compiled text is one that has a meaning. */
  lemma CompiledSource(code: string, P: seq<Instruction>) returns (items: seq<Item>)
    requires Compilable(Commands(code)) && Linked(P, Commands(code))
    ensures Source(items) && Text(items) == code
  {
    hide Linked, Compilable, Commands;
    var cs := CompiledTree(code, P);
    items := Annotate(code, cs);
  }

  // ---------------------------------------------------------------- which texts compile

  predicate IsCommand(c: char) {
    c in "><+-.,[]"
  }

  function CommandCount(code: string): nat {
    if code == [] then 0 else CommandCount(code[..|code| - 1]) + if IsCommand(code[|code| - 1]) then 1 else 0
  }

  /** Opening brackets less closing ones. */
  function Level(code: string): int {
    if code == [] then 0
    else
      var c := code[|code| - 1];
      Level(code[..|code| - 1]) + if c == '[' then 1 else if c == ']' then -1 else 0
  }

  /** Brackets pair up, nested at most 512 deep, and there are at most 4095 commands. */
  ghost predicate Acceptable(code: string) {
    CommandCount(code) <= 4095 && Level(code) == 0 && forall k | 0 <= k <= |code| :: LevelFits(code, k)
  }

  ghost predicate LevelFits(code: string, k: nat)
    requires k <= |code|
  {
    0 <= Level(code[..k]) <= 512
  }

  lemma CommandOps(c: char)
    ensures IsCommand(c) <==> OpOf(c) != OP_END
  {
  }

  lemma {:induction false} LevelIs(code: string)
    ensures |Commands(code)| == CommandCount(code) && Depth(Commands(code), |Commands(code)|) == Level(code)
    decreases |code|
  {
    hide OpOf, IsCommand;
    if code != [] {
      var front, c := code[..|code| - 1], code[|code| - 1];
      LevelIs(front);
      CommandOps(c);
      BracketOps(c);
      var ops := Commands(front);
      if OpOf(c) != OP_END {
        assert Commands(code) == ops + [OpOf(c)];
        DepthLast(ops, OpOf(c));
      } else {
        assert Commands(code) == ops;
      }
    }
  }

  lemma DepthLast(ops: seq<int>, op: int)
    ensures Depth(ops + [op], |ops| + 1)
         == Depth(ops, |ops|) + if op == OP_JMP_FWD then 1 else if op == OP_JMP_BCK then -1 else 0
  {
    DepthFront(ops, op, |ops|);
  }

  lemma {:induction false} DepthFront(ops: seq<int>, op: int, k: nat)
    requires k <= |ops|
    ensures Depth(ops + [op], k) == Depth(ops, k)
    decreases k
  {
    if k > 0 {
      DepthFront(ops, op, k - 1);
    }
  }

  /** Every command of the text is the last of some beginning of it. */
  lemma {:induction false} Beginning(code: string, i: nat) returns (k: nat)
    requires i <= |Commands(code)|
    ensures k <= |code| && |Commands(code[..k])| == i && Commands(code[..k]) <= Commands(code)
    decreases |code|
  {
    hide OpOf;
    if i == |Commands(code)| {
      k := |code|;
      assert code[..k] == code;
    } else {
      var front := code[..|code| - 1];
      k := Beginning(front, i);
      assert code[..k] == front[..k];
    }
  }

  lemma {:induction false} DepthOfPrefix(ops: seq<int>, more: seq<int>, k: nat)
    requires ops <= more && k <= |ops|
    ensures Depth(more, k) == Depth(ops, k)
    decreases k
  {
    if k > 0 {
      DepthOfPrefix(ops, more, k - 1);
    }
  }

  lemma {:induction false} BeginningPrefix(code: string, k: nat)
    requires k <= |code|
    ensures Commands(code[..k]) <= Commands(code)
  {
    hide Commands;
    CommandsAppend(code[..k], code[k..]);
    assert code[..k] + code[k..] == code;
  }

  /** compile_bf accepts exactly these texts. */
  lemma AcceptableExactly(code: string)
    ensures Compilable(Commands(code)) <==> Acceptable(code)
  {
    hide Commands, Depth, Level, CommandCount;
    var ops := Commands(code);
    LevelIs(code);
    if Compilable(ops) {
      forall k | 0 <= k <= |code|
        ensures LevelFits(code, k)
      {
        LevelIs(code[..k]);
        BeginningPrefix(code, k);
        var i := |Commands(code[..k])|;
        DepthOfPrefix(Commands(code[..k]), ops, i);
        assert Fits(ops, i);
      }
    }
    if Acceptable(code) {
      forall i | 0 <= i <= |ops|
        ensures Fits(ops, i)
      {
        var k := Beginning(code, i);
        LevelIs(code[..k]);
        DepthOfPrefix(Commands(code[..k]), ops, i);
        assert LevelFits(code, k);
      }
    }
  }
}
