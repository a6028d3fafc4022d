/** Running an expanded program simulates the original one, instruction by instruction and over whole runs. */
module Simulation {
  import opened Bits
  import opened Machine
  import opened Scratch
  import opened MiniRv
  import opened Tables
  import opened Effects
  import opened MacroEqual
  import opened MacroLoads
  import opened MacroBranch
  import opened Rv32
  import opened Expand
  import opened Processor
  import opened SimRelation

  /** at[k] is the address of instruction k; the last entry is the end of the code. */
  datatype Program = Program(code: seq<Rv>, at: seq<int>)

  predicate RvAllowed(n: nat, i: Rv) {
    match i
    case Plain(op) => PlainFree(op)
    case Set(rd, what) => Allowed(rd, what)
    case Sh(rs2, off, rs1) => Free(rs2) && Free(rs1) && off < 2047
    case Branch(cond, rs1, rs2, target) => Free(rs1) && Free(rs2) && target <= n
    case Jal(rd, target) => Free(rd) && target <= n
    case Jalr(rd, rs1, imm) => Free(rd) && Free(rs1)
  }

  ghost predicate Assembled(P: Program) {
    && |P.at| == |P.code| + 1
    && (forall k | 0 <= k < |P.code| :: RvAllowed(|P.code|, P.code[k]))
    && forall k | 0 <= k < |P.at| :: Address(P.at[k])
  }

  predicate Address(a: int) {
    0 <= a < W && a % 4 == 0
  }

  /** What becomes of instruction k. Jumps go through la (inst-replace.h:92-108, 277-296, 618-627). */
  function Block(L: Layout, P: Program, k: nat): seq<Instr>
    requires Assembled(P) && k < |P.code|
  {
    match P.code[k]
    case Plain(op) => [Op(op)]
    case Set(rd, what) => Ops(CalcCode(L, rd, what))
    case Sh(rs2, off, rs1) => Ops(ShCode(rs2, off, rs1))
    case Branch(cond, rs1, rs2, target) =>
      var test := BranchTest(L, cond, rs1, rs2);
      Ops(test.code + Resolve(test.oneIsTaken, P.at[target], P.at[k + 1])) + [Jump(ZERO, TP, 0)]
    case Jal(rd, target) =>
      if rd == ZERO then Ops(La(TP, P.at[target])) + [Jump(ZERO, TP, 0)]
      else Ops(La(rd, P.at[target])) + [Jump(rd, rd, 0)]
    case Jalr(rd, rs1, imm) => [Jump(rd, rs1, imm)]
  }

  /** The blocks lie one after the other in code memory. */
  ghost predicate Placed(L: Layout, P: Program, code: map<int, Instr>) {
    Assembled(P) && forall k | 0 <= k < |P.code| :: PlacedAt(L, P, code, k)
  }

  ghost predicate PlacedAt(L: Layout, P: Program, code: map<int, Instr>, k: nat)
    requires Assembled(P) && k < |P.code|
  {
    BlockAt(code, P.at[k], Block(L, P, k)) && P.at[k + 1] == P.at[k] + 4 * |Block(L, P, k)|
  }

  // ---------------------------------------------------------------- the original program

  /** Instruction number and state. */
  datatype Config = Config(k: nat, s: State)

  /** One instruction of the original program. Return addresses are where the assembler puts things. */
  ghost predicate SourceStep(P: Program, c: Config, d: Config)
    requires Assembled(P)
  {
    && c.k < |P.code| && d.k <= |P.code| && WellTyped(c.s)
    && match P.code[c.k]
       case Branch(cond, rs1, rs2, target) =>
         d.s == c.s && d.k == if Taken(cond, c.s.regs[rs1], c.s.regs[rs2]) then target else c.k + 1
       case Jal(rd, target) =>
         d.k == target && d.s == State(SetReg(c.s.regs, rd, P.at[c.k + 1]), c.s.mem)
       case Jalr(rd, rs1, imm) =>
         P.at[d.k] == JumpTarget(c.s.regs[rs1], imm) && d.s == State(SetReg(c.s.regs, rd, P.at[c.k + 1]), c.s.mem)
       case _ => d.k == c.k + 1 && d.s == Exec(P.code[c.k], c.s)
  }

  ghost function RvReads(i: Rv, s: State): set<int>
    requires WellTyped(s)
  {
    if i.Plain? then PlainReads(i.op, s) else if i.Set? then Reads(i.what, s) else {}
  }

  ghost function RvWrites(i: Rv, s: State): set<int>
    requires WellTyped(s)
  {
    if i.Plain? then PlainWrites(i.op, s)
    else if i.Sh? then {Addr(s.regs[i.rs1], i.off), Addr(s.regs[i.rs1], i.off + 1)}
    else {}
  }

  /**
   * The original program does not read what it has not written below its stack pointer, and does not write there, into
   * the tables or into the compare array (inst-replace.h:7). D is what earlier scratch work has left behind.
   */
  ghost predicate Careful(L: Layout, D: set<int>, i: Rv, s: State) {
    && WellTyped(s)
    && (forall a | a in RvReads(i, s) :: 0 <= a < W && a !in D && Clear(L, s, a))
    && forall a | a in RvWrites(i, s) :: 0 <= a < W && a !in L.rom && Clear(L, s, a)
  }

  ghost function After(D: set<int>, i: Rv, s: State): set<int>
    requires WellTyped(s)
  {
    D + ScratchSet(s) - RvWrites(i, s)
  }

  // ---------------------------------------------------------------- one instruction

  /** Stores that agree clean the addresses they write. */
  lemma StoreSim(L: Layout, D: set<int>, w: set<int>, s: State, s': State, t: State, t': State)
    requires LayoutOK(L) && Sim(L, D, s, t) && StackOK(L, s') && WellTyped(t')
    requires forall a | a in w :: a !in L.rom && !InScratch(s, a)
    requires forall r | 0 <= r < 32 && Free(r) :: t'.regs[r] == s'.regs[r]
    requires forall a | 0 <= a < W && !InScratch(t, a) && (a in w || t.mem[a] == s.mem[a]) :: t'.mem[a] == s'.mem[a]
    requires forall a | 0 <= a < W && !InScratch(t, a) && a !in w :: t'.mem[a] == t.mem[a]
    ensures Sim(L, D + ScratchSet(s) - w, s', t')
  {
    hide LayoutOK, RomOK;
    RoomOf(L, t);
    assert Free(SP);
    forall a | 0 <= a < W && a in L.rom
      ensures t'.mem[a] == t.mem[a]
    {
      RomClear(L, t, a);
    }
    RomFrom(L, t, t', s');
    forall a | 0 <= a < W && a !in D + ScratchSet(s) - w && !InCheck(L, a)
      ensures t'.mem[a] == s'.mem[a]
    {
      StoredOrSame(D, w, s, t, a);
    }
  }

  lemma StoredOrSame(D: set<int>, w: set<int>, s: State, t: State, a: int)
    requires WellTyped(s) && WellTyped(t) && t.regs[SP] == s.regs[SP] && a !in D + ScratchSet(s) - w
    requires forall a | a in w :: !InScratch(s, a)
    ensures !InScratch(t, a) && (a in w || a !in D)
  {
  }

  lemma PlainSim(L: Layout, D: set<int>, op: Base, s: State, t: State)
    requires LayoutOK(L) && Sim(L, D, s, t) && PlainFree(op) && Careful(L, D, Plain(op), s) && StackOK(L, Step(op, s))
    ensures WellTyped(t) && Sim(L, After(D, Plain(op), s), Step(op, s), Step(op, t))
  {
    hide LayoutOK, RomOK, Step, PlainReads, PlainWrites, StackOK;
    var i := Plain(op);
    RoomOf(L, t);
    assert Free(SP);
    assert RvReads(i, s) == PlainReads(op, s) && RvWrites(i, s) == PlainWrites(op, s);
    PlainSame(L, D, op, s, t);
    StoreSim(L, D, PlainWrites(op, s), s, Step(op, s), t, Step(op, t));
  }

  lemma ShSim(L: Layout, D: set<int>, i: Rv, s: State, t: State) returns (t': State)
    requires LayoutOK(L) && Sim(L, D, s, t) && i.Sh? && Free(i.rs2) && Free(i.rs1) && i.off < 2047
    requires Careful(L, D, i, s) && StackOK(L, Exec(i, s))
    ensures WellTyped(t) && t' == Run(ShCode(i.rs2, i.off, i.rs1), t) && Sim(L, After(D, i, s), Exec(i, s), t')
  {
    hide LayoutOK, RomOK, Run, ShCode, Addr, StackOK;
    RoomOf(L, t);
    assert Free(SP);
    var a, b, v := Addr(s.regs[i.rs1], i.off), Addr(s.regs[i.rs1], i.off + 1), s.regs[i.rs2];
    assert a in RvWrites(i, s) && b in RvWrites(i, s);
    t' := ShRuns(L, i.rs2, i.off, i.rs1, a, b, t);
    HalfStored(s.mem, t.mem, a, b, v % 256, (v / 256) % 256);
    assert Exec(i, s).mem == s.mem[a := v % 256][b := (v / 256) % 256];
    StoreSim(L, D, {a, b}, s, Exec(i, s), t, t');
  }

  lemma HalfStored(m: seq<int>, m': seq<int>, a: int, b: int, x: int, y: int)
    requires |m| == |m'| == W && 0 <= a < W && 0 <= b < W
    ensures forall c | 0 <= c < W && (c in {a, b} || m'[c] == m[c]) :: m'[a := x][b := y][c] == m[a := x][b := y][c]
    ensures forall c | 0 <= c < W && c !in {a, b} :: m'[a := x][b := y][c] == m'[c]
  {
  }

  lemma SetSim(L: Layout, D: set<int>, rd: Reg, c: Calc, s: State, t: State) returns (t': State)
    requires LayoutOK(L) && Sim(L, D, s, t) && Allowed(rd, c) && StackOK(L, s)
    requires Careful(L, D, Set(rd, c), s) && StackOK(L, Exec(Set(rd, c), s))
    ensures WellTyped(t) && t' == Run(CalcCode(L, rd, c), t) && Sim(L, After(D, Set(rd, c), s), Exec(Set(rd, c), s), t')
  {
    hide LayoutOK, RomOK, Run, CalcCode, Value, Reads, Effect, StackOK, Sim;
    var i := Set(rd, c);
    assert RvReads(i, s) == Reads(c, s) && RvWrites(i, s) == {};
    StackApart(L, D, s, t);
    ReadsClear(L, D, c, s, t);
    ValueSame(L, D, rd, c, s, t);
    SimRoom(L, D, s, t);
    t' := CalcRuns(L, rd, c, t);
    KeepSim(L, D, rd, Value(c, s), s, Exec(i, s), t, t');
    assert After(D, i, s) == D + ScratchSet(s);
  }

  lemma SimRoom(L: Layout, D: set<int>, s: State, t: State)
    requires Sim(L, D, s, t)
    ensures RomOK(L, t)
  {
  }

  lemma ReadsClear(L: Layout, D: set<int>, c: Calc, s: State, t: State)
    requires WellTyped(s) && WellTyped(t) && t.regs[SP] == s.regs[SP]
    requires forall a | a in Reads(c, s) :: 0 <= a < W && a !in D && Clear(L, s, a)
    ensures forall a | a in Reads(c, s) :: a !in D && !InCheck(L, a) && Clear(L, t, a)
  {
  }

  // ---------------------------------------------------------------- transfers of control

  lemma JumpExact(a: int)
    requires Address(a)
    ensures JumpTarget(a, 0) == a
  {
    MulDivMod(a, W, 0, a);
    var q := a / 4;
    MulDivMod(a, 2, 2 * q, 0);
  }

  /** A branch macro reaches the target or falls through as the condition says, and changes nothing that counts. */
  lemma BranchRuns(L: Layout, cond: Cond, rs1: Reg, rs2: Reg, target: int, next: int, s: State) returns (t: State)
    requires LayoutOK(L) && RomOK(L, s) && CheckApart(L, s) && Free(rs1) && Free(rs2) && Address(target)
    requires Address(next)
    ensures (var test := BranchTest(L, cond, rs1, rs2);
             t == Run(test.code + Resolve(test.oneIsTaken, target, next), s))
    ensures Effect(L, ZERO, 0, s, t) && t.regs[TP] == if Taken(cond, s.regs[rs1], s.regs[rs2]) then target else next
  {
    hide LayoutOK, RomOK, CheckApart, Run, BranchTest, Resolve, Taken, Rest;
    RoomOf(L, s);
    var test := BranchTest(L, cond, rs1, rs2);
    var x := Taken(cond, s.regs[rs1], s.regs[rs2]) == test.oneIsTaken;
    var s1 := BranchTestRuns(L, cond, rs1, rs2, s);
    t := ResolveRuns(L, test.oneIsTaken, target, next, x, s1);
    RunAppend(test.code, Resolve(test.oneIsTaken, target, next), s);
    QuietRest(L, s1, t);
    QuietTrans(L, s, s1, t);
  }

  lemma BranchSim(L: Layout, P: Program, code: map<int, Instr>, D: set<int>, c: Config, d: Config, t: State)
    returns (n: nat, e: Cpu)
    requires LayoutOK(L) && Placed(L, P, code) && SourceStep(P, c, d) && P.code[c.k].Branch?
    requires StackOK(L, c.s) && StackOK(L, d.s) && Sim(L, D, c.s, t)
    ensures Reaches(code, Cpu(P.at[c.k], t), n, e) && e.pc == P.at[d.k] && Sim(L, D + ScratchSet(c.s), d.s, e.s)
  {
    hide LayoutOK, Run, BranchTest, Resolve, Taken, StackOK, RomOK, BlockAt, Sim;
    var k, i := c.k, P.code[c.k];
    assert RvAllowed(|P.code|, i) && PlacedAt(L, P, code, k);
    var target, next := P.at[i.target], P.at[k + 1];
    StackApart(L, D, c.s, t);
    SimRoom(L, D, c.s, t);
    OperandSame(L, D, i.rs1, c.s, t);
    OperandSame(L, D, i.rs2, c.s, t);
    var t' := BranchRuns(L, i.cond, i.rs1, i.rs2, target, next, t);
    var test := BranchTest(L, i.cond, i.rs1, i.rs2);
    var body := test.code + Resolve(test.oneIsTaken, target, next);
    e := BlockJumps(code, P.at[k], body, ZERO, TP, 0, t);
    n := |body| + 1;
    JumpExact(t'.regs[TP]);
    KeepSim(L, D, ZERO, 0, c.s, d.s, t, t');
  }

  lemma OperandSame(L: Layout, D: set<int>, r: Reg, s: State, t: State)
    requires Sim(L, D, s, t) && Free(r)
    ensures WellTyped(s) && WellTyped(t) && t.regs[r] == s.regs[r]
  {
  }

  /** The link register gets the address behind the jump. */
  lemma LinkSim(L: Layout, D: set<int>, rd: Reg, link: int, s: State, s': State, t: State, t': State)
    requires LayoutOK(L) && Sim(L, D, s, t) && StackOK(L, s') && Free(rd) && WellTyped(t')
    requires s' == State(SetReg(s.regs, rd, link), s.mem) && t'.mem == t.mem
    requires t'.regs == SetReg(t.regs[TP := t'.regs[TP]], rd, link)
    ensures Sim(L, D + ScratchSet(s), s', t')
  {
    hide LayoutOK, RomOK;
    RoomOf(L, t);
    KeepSim(L, D, rd, link, s, s', t, t');
  }

  lemma JalSim(L: Layout, P: Program, code: map<int, Instr>, D: set<int>, c: Config, d: Config, t: State)
    returns (n: nat, e: Cpu)
    requires LayoutOK(L) && Placed(L, P, code) && SourceStep(P, c, d) && P.code[c.k].Jal?
    requires StackOK(L, c.s) && StackOK(L, d.s) && Sim(L, D, c.s, t)
    ensures Reaches(code, Cpu(P.at[c.k], t), n, e) && e.pc == P.at[d.k] && Sim(L, D + ScratchSet(c.s), d.s, e.s)
  {
    hide LayoutOK, Run, StackOK, RomOK, BlockAt, Sim, Placed, SourceStep, Block, La;
    JalFacts(L, P, code, c, d);
    var k, i := c.k, P.code[c.k];
    var target, r := P.at[i.target], if i.rd == ZERO then TP else i.rd;
    OperandSame(L, D, ZERO, c.s, t);
    RunLa(r, target, t);
    e := BlockJumps(code, P.at[k], La(r, target), i.rd, r, 0, t);
    n := |La(r, target)| + 1;
    JumpExact(target);
    JalRegs(t.regs, i.rd, r, target, P.at[k + 1]);
    LinkSim(L, D, i.rd, P.at[k + 1], c.s, d.s, t, e.s);
  }

  lemma JalFacts(L: Layout, P: Program, code: map<int, Instr>, c: Config, d: Config)
    requires Placed(L, P, code) && SourceStep(P, c, d) && P.code[c.k].Jal?
    ensures c.k < |P.code| && d.k <= |P.code| && |P.at| == |P.code| + 1
    ensures (var i := P.code[c.k];
             && Free(i.rd) && d.k == i.target <= |P.code| && Address(P.at[i.target])
             && (var r := if i.rd == ZERO then TP else i.rd;
                 && BlockAt(code, P.at[c.k], Ops(La(r, P.at[i.target])) + [Jump(i.rd, r, 0)])
                 && 0 <= P.at[c.k] && P.at[c.k + 1] == P.at[c.k] + 4 * |La(r, P.at[i.target])| + 4 < W)
             && d.s == State(SetReg(c.s.regs, i.rd, P.at[c.k + 1]), c.s.mem))
  {
    hide BlockAt, La;
    var i := P.code[c.k];
    assert RvAllowed(|P.code|, i) && PlacedAt(L, P, code, c.k) && Address(P.at[c.k]) && Address(P.at[c.k + 1]);
    assert Address(P.at[i.target]);
  }

  lemma JalRegs(regs: seq<int>, rd: Reg, r: Reg, target: int, link: int)
    requires |regs| == 32 && Free(rd) && r == if rd == ZERO then TP else rd
    ensures (var x := SetReg(SetReg(regs, r, target), rd, link);
             x == SetReg(regs[TP := x[TP]], rd, link) && SetReg(regs, r, target)[r] == target)
  {
  }

  lemma JalrSim(L: Layout, P: Program, code: map<int, Instr>, D: set<int>, c: Config, d: Config, t: State)
    returns (n: nat, e: Cpu)
    requires LayoutOK(L) && Placed(L, P, code) && SourceStep(P, c, d) && P.code[c.k].Jalr?
    requires StackOK(L, c.s) && StackOK(L, d.s) && Sim(L, D, c.s, t)
    ensures Reaches(code, Cpu(P.at[c.k], t), n, e) && e.pc == P.at[d.k] && Sim(L, D + ScratchSet(c.s), d.s, e.s)
  {
    hide LayoutOK, StackOK, RomOK, BlockAt, Sim, Placed, SourceStep, Block, JumpTarget;
    JalrFacts(L, P, code, c, d);
    var k, i := c.k, P.code[c.k];
    OperandSame(L, D, i.rs1, c.s, t);
    e := BlockJumps(code, P.at[k], [], i.rd, i.rs1, i.imm, t);
    n := 1;
    assert Run([], t) == t;
    LinkSim(L, D, i.rd, P.at[k + 1], c.s, d.s, t, e.s);
  }

  lemma JalrFacts(L: Layout, P: Program, code: map<int, Instr>, c: Config, d: Config)
    requires Placed(L, P, code) && SourceStep(P, c, d) && P.code[c.k].Jalr?
    ensures c.k < |P.code| && d.k <= |P.code| && |P.at| == |P.code| + 1
    ensures (var i := P.code[c.k];
             && Free(i.rd) && Free(i.rs1) && P.at[d.k] == JumpTarget(c.s.regs[i.rs1], i.imm)
             && BlockAt(code, P.at[c.k], Ops([]) + [Jump(i.rd, i.rs1, i.imm)])
             && 0 <= P.at[c.k] && P.at[c.k + 1] == P.at[c.k] + 4 < W
             && d.s == State(SetReg(c.s.regs, i.rd, P.at[c.k + 1]), c.s.mem))
  {
    hide BlockAt;
    var i := P.code[c.k];
    assert RvAllowed(|P.code|, i) && PlacedAt(L, P, code, c.k) && Address(P.at[c.k]) && Address(P.at[c.k + 1]);
    assert Ops([]) + [Jump(i.rd, i.rs1, i.imm)] == [Jump(i.rd, i.rs1, i.imm)];
  }

  // ---------------------------------------------------------------- whole runs

  lemma DataSim(L: Layout, P: Program, code: map<int, Instr>, D: set<int>, c: Config, d: Config, t: State)
    returns (n: nat, e: Cpu)
    requires LayoutOK(L) && Placed(L, P, code) && SourceStep(P, c, d) && !Control(P.code[c.k])
    requires StackOK(L, c.s) && StackOK(L, d.s) && Sim(L, D, c.s, t) && Careful(L, D, P.code[c.k], c.s)
    ensures Reaches(code, Cpu(P.at[c.k], t), n, e) && e.pc == P.at[d.k] && Sim(L, After(D, P.code[c.k], c.s), d.s, e.s)
  {
    hide LayoutOK, StackOK, RomOK, BlockAt, Sim, Careful, After, CalcCode, ShCode, Run, Exec, Step, Allowed;
    var k, i := c.k, P.code[c.k];
    assert RvAllowed(|P.code|, i) && PlacedAt(L, P, code, k);
    OperandSame(L, D, ZERO, c.s, t);
    var body, t';
    if i.Plain? {
      body := [i.op];
      t' := Step(i.op, t);
      PlainExec(i, c.s);
      PlainSim(L, D, i.op, c.s, t);
      Run1(i.op, t);
      assert Ops(body) == [Op(i.op)];
    } else if i.Set? {
      body := CalcCode(L, i.rd, i.what);
      t' := SetSim(L, D, i.rd, i.what, c.s, t);
    } else {
      body := ShCode(i.rs2, i.off, i.rs1);
      t' := ShSim(L, D, i, c.s, t);
    }
    BlockRuns(code, P.at[k], body, t);
    n, e := |body|, Cpu(P.at[k + 1], t');
  }

  lemma PlainExec(i: Rv, s: State)
    requires WellTyped(s) && i.Plain?
    ensures Exec(i, s) == Step(i.op, s)
  {
    hide Step;
  }

  /** One instruction of the original program, its expansion on the processor. */
  lemma StepSim(L: Layout, P: Program, code: map<int, Instr>, D: set<int>, c: Config, d: Config, t: State)
    returns (n: nat, e: Cpu)
    requires LayoutOK(L) && Placed(L, P, code) && SourceStep(P, c, d)
    requires StackOK(L, c.s) && StackOK(L, d.s) && Sim(L, D, c.s, t) && Careful(L, D, P.code[c.k], c.s)
    ensures Reaches(code, Cpu(P.at[c.k], t), n, e) && e.pc == P.at[d.k] && Sim(L, After(D, P.code[c.k], c.s), d.s, e.s)
  {
    hide LayoutOK, StackOK, RomOK, Sim, Careful, Placed, Reaches;
    var i := P.code[c.k];
    if i.Branch? {
      n, e := BranchSim(L, P, code, D, c, d, t);
    } else if i.Jal? {
      n, e := JalSim(L, P, code, D, c, d, t);
    } else if i.Jalr? {
      n, e := JalrSim(L, P, code, D, c, d, t);
    } else {
      n, e := DataSim(L, P, code, D, c, d, t);
    }
    assert Control(i) ==> After(D, i, c.s) == D + ScratchSet(c.s);
  }

  /** A run of the original program that is careful throughout, starting with the dirty addresses D. */
  ghost predicate CarefulRun(L: Layout, P: Program, D: set<int>, run: seq<Config>)
    requires Assembled(P)
    decreases |run|
  {
    && run != [] && StackOK(L, run[0].s)
    && (|run| > 1 ==>
          && SourceStep(P, run[0], run[1]) && Careful(L, D, P.code[run[0].k], run[0].s)
          && CarefulRun(L, P, After(D, P.code[run[0].k], run[0].s), run[1..]))
  }

  /** The dirty addresses at the end of the run. */
  ghost function DirtyAfter(L: Layout, P: Program, D: set<int>, run: seq<Config>): set<int>
    requires Assembled(P) && CarefulRun(L, P, D, run)
    decreases |run|
  {
    if |run| == 1 then D else DirtyAfter(L, P, After(D, P.code[run[0].k], run[0].s), run[1..])
  }

  /**
   * For every program, every careful run and every related start, the expanded program reaches the corresponding
   * instruction with the same registers, but for tp and gp, and the same memory, but for dirty scratch bytes and the
   * compare array.
   */
  lemma {:induction false} RunSim(L: Layout, P: Program, code: map<int, Instr>, D: set<int>, run: seq<Config>, t: State)
    returns (n: nat, e: Cpu)
    requires LayoutOK(L) && Placed(L, P, code) && CarefulRun(L, P, D, run) && run[0].k <= |P.code|
    requires Sim(L, D, run[0].s, t)
    ensures Reaches(code, Cpu(P.at[run[0].k], t), n, e)
    ensures run[|run| - 1].k <= |P.code| && e.pc == P.at[run[|run| - 1].k]
    ensures Sim(L, DirtyAfter(L, P, D, run), run[|run| - 1].s, e.s)
    decreases |run|
  {
    hide LayoutOK, StackOK, RomOK, Sim, Careful, Reaches, After;
    if |run| == 1 {
      n, e := 0, Cpu(P.at[run[0].k], t);
      Stay(L, code, D, run[0].s, e);
    } else {
      var c, d := run[0], run[1];
      NextStack(L, P, After(D, P.code[c.k], c.s), run[1..]);
      var m, f := StepSim(L, P, code, D, c, d, t);
      n, e := RunSim(L, P, code, After(D, P.code[c.k], c.s), run[1..], f.s);
      ReachesTrans(code, Cpu(P.at[c.k], t), m, f, n, e);
      n := m + n;
    }
  }

  lemma NextStack(L: Layout, P: Program, D: set<int>, run: seq<Config>)
    requires Assembled(P) && CarefulRun(L, P, D, run)
    ensures StackOK(L, run[0].s)
  {
  }

  lemma Stay(L: Layout, code: map<int, Instr>, D: set<int>, s: State, e: Cpu)
    requires Sim(L, D, s, e.s)
    ensures Reaches(code, e, 0, e)
  {
  }
}
