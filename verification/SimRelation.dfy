/** When a state of the expanded program stands for a state of the original one. */
module SimRelation {
  import opened Bits
  import opened Machine
  import opened Scratch
  import opened MiniRv
  import opened Tables
  import opened Effects
  import opened MacroEqual
  import opened MacroLoads
  import opened Rv32
  import opened Expand

  /** Registers agree but for tp and gp; memory agrees but for the dirty addresses D and the compare array. */
  ghost predicate Sim(L: Layout, D: set<int>, s: State, t: State) {
    && WellTyped(s) && RomOK(L, t)
    && (forall r | 0 <= r < 32 && Free(r) :: t.regs[r] == s.regs[r])
    && forall a | 0 <= a < W && a !in D && !InCheck(L, a) :: t.mem[a] == s.mem[a]
  }

  /** The stack pointer leaves room below it, apart from the tables. */
  ghost predicate StackOK(L: Layout, s: State) {
    && WellTyped(s) && 28 <= s.regs[SP]
    && (L.check + 256 <= s.regs[SP] - 28 || s.regs[SP] <= L.check)
    && forall a | a in L.rom :: !InScratch(s, a)
  }

  ghost function ScratchSet(s: State): set<int>
    requires WellTyped(s)
  {
    set a | s.regs[SP] - 28 <= a < s.regs[SP] && InScratch(s, a)
  }

  lemma RomFrom(L: Layout, t: State, t': State, s': State)
    requires RomOK(L, t) && WellTyped(t') && StackOK(L, s') && t'.regs[SP] == s'.regs[SP]
    requires forall a | 0 <= a < W && a in L.rom :: t'.mem[a] == t.mem[a]
    ensures RomOK(L, t')
  {
    forall a | a in L.rom
      ensures Holds(L, t', a)
    {
      assert Holds(L, t, a) && !InScratch(s', a);
    }
  }

  lemma StackApart(L: Layout, D: set<int>, s: State, t: State)
    requires LayoutOK(L) && Sim(L, D, s, t) && StackOK(L, s)
    ensures CheckApart(L, t) && t.regs[SP] == s.regs[SP] && WellTyped(t)
  {
    hide RomOK;
    RoomOf(L, t);
    assert Free(SP);
  }

  lemma RomClear(L: Layout, t: State, a: int)
    requires LayoutOK(L) && RomOK(L, t) && a in L.rom
    ensures Room(t) && 0 <= a < W && !InScratch(t, a) && !InCheck(L, a)
  {
    assert Holds(L, t, a) && RomAddress(L, a);
  }

  /** A macro with the right value in rd keeps the relation; the scratch bytes become dirty. */
  lemma KeepSim(L: Layout, D: set<int>, rd: Reg, v: int, s: State, s': State, t: State, t': State)
    requires LayoutOK(L) && Sim(L, D, s, t) && StackOK(L, s') && Free(rd)
    requires s' == State(SetReg(s.regs, rd, v), s.mem) && Effect(L, rd, v, t, t')
    ensures Sim(L, D + ScratchSet(s), s', t')
  {
    hide LayoutOK, RomOK;
    RoomOf(L, t);
    assert Free(SP);
    forall r | 0 <= r < 32 && Free(r)
      ensures t'.regs[r] == s'.regs[r]
    {
      assert t.regs[r] == s.regs[r];
    }
    forall a | a in L.rom
      ensures 0 <= a < W && t'.mem[a] == t.mem[a]
    {
      RomClear(L, t, a);
    }
    RomFrom(L, t, t', s');
    forall a | 0 <= a < W && a !in D + ScratchSet(s) && !InCheck(L, a)
      ensures t'.mem[a] == s'.mem[a]
    {
      assert !InScratch(t, a);
    }
  }

  // ---------------------------------------------------------------- values

  lemma ReadSame(L: Layout, D: set<int>, base: Reg, off: int, s: State, t: State)
    requires Sim(L, D, s, t) && Free(base) && Addr(s.regs[base], off) !in D && !InCheck(L, Addr(s.regs[base], off))
    ensures t.regs[base] == s.regs[base] && WellTyped(t)
    ensures LoadByte(t, t.regs[base], off) == LoadByte(s, s.regs[base], off)
  {
  }

  /** Operands and loaded bytes agree, so the values agree. */
  lemma ValueSame(L: Layout, D: set<int>, rd: Reg, c: Calc, s: State, t: State)
    requires Sim(L, D, s, t) && Allowed(rd, c) && forall a | a in Reads(c, s) :: a !in D && !InCheck(L, a)
    ensures WellTyped(t) && Value(c, t) == Value(c, s) && Reads(c, t) == Reads(c, s)
  {
    hide LoadByte, Addr, RomOK, SignExtend8, SignExtend16;
    RoomOf(L, t);
    match c {
      case Lb(off, rs1) =>
        assert Addr(s.regs[rs1], off) in Reads(c, s);
        ReadSame(L, D, rs1, off, s, t);
      case Lh(off, rs1) =>
        assert Addr(s.regs[rs1], off) in Reads(c, s) && Addr(s.regs[rs1], off + 1) in Reads(c, s);
        ReadSame(L, D, rs1, off, s, t);
        ReadSame(L, D, rs1, off + 1, s, t);
      case Lhu(off, rs1) =>
        assert Addr(s.regs[rs1], off) in Reads(c, s) && Addr(s.regs[rs1], off + 1) in Reads(c, s);
        ReadSame(L, D, rs1, off, s, t);
        ReadSame(L, D, rs1, off + 1, s, t);
      case _ =>
    }
  }

  // ---------------------------------------------------------------- base instructions run as they are

  predicate PlainFree(op: Base) {
    match op
    case Add(rd, rs1, rs2) => Free(rd) && Free(rs1) && Free(rs2)
    case Addi(rd, rs1, imm) => Free(rd) && Free(rs1)
    case Lui(rd, imm20) => Free(rd)
    case Lw(rd, off, rs1) => Free(rd) && Free(rs1)
    case Lbu(rd, off, rs1) => Free(rd) && Free(rs1)
    case Sw(rs2, off, rs1) => Free(rs2) && Free(rs1)
    case Sb(rs2, off, rs1) => Free(rs2) && Free(rs1)
  }

  /** The four addresses of a word. */
  function WordSet(a: int): set<int> {
    {a % W, (a + 1) % W, (a + 2) % W, (a + 3) % W}
  }

  function PlainReads(op: Base, s: State): set<int>
    requires WellTyped(s)
  {
    match op
    case Lw(rd, off, rs1) => WordSet(Addr(s.regs[rs1], off))
    case Lbu(rd, off, rs1) => {Addr(s.regs[rs1], off)}
    case _ => {}
  }

  function PlainWrites(op: Base, s: State): set<int>
    requires WellTyped(s)
  {
    match op
    case Sw(rs2, off, rs1) => WordSet(Addr(s.regs[rs1], off))
    case Sb(rs2, off, rs1) => {Addr(s.regs[rs1], off)}
    case _ => {}
  }

  lemma LoadSame(m: seq<int>, m': seq<int>, a: int)
    requires |m| == |m'| == W && forall x | x in WordSet(a) :: m[x] == m'[x]
    ensures LoadWord(m, a) == LoadWord(m', a)
  {
    assert a % W in WordSet(a) && (a + 1) % W in WordSet(a) && (a + 2) % W in WordSet(a) && (a + 3) % W in WordSet(a);
  }

  /** The same word stored into two memories: they agree where it was stored and where they agreed before. */
  lemma StoreSame(m: seq<int>, m': seq<int>, a: int, w: Word, x: int)
    requires |m| == |m'| == W && 0 <= x < W && (x in WordSet(a) || m[x] == m'[x])
    ensures |StoreWord(m, a, w)| == |StoreWord(m', a, w)| == W && StoreWord(m, a, w)[x] == StoreWord(m', a, w)[x]
    ensures x !in WordSet(a) ==> StoreWord(m', a, w)[x] == m'[x]
  {
  }

  /**
   * A base instruction with agreeing operands leaves agreeing registers, and memory that agrees where it did or where
   * the instruction stored.
   */
  lemma PlainSame(L: Layout, D: set<int>, op: Base, s: State, t: State)
    requires Sim(L, D, s, t) && PlainFree(op)
             && forall a | a in PlainReads(op, s) :: 0 <= a < W && a !in D && !InCheck(L, a)
    ensures WellTyped(t) && WellTyped(Step(op, s)) && WellTyped(Step(op, t)) && PlainWrites(op, t) == PlainWrites(op, s)
    ensures forall r | 0 <= r < 32 && Free(r) :: Step(op, t).regs[r] == Step(op, s).regs[r]
    ensures forall a | 0 <= a < W && (a in PlainWrites(op, s) || t.mem[a] == s.mem[a]) ::
              Step(op, t).mem[a] == Step(op, s).mem[a]
    ensures forall a | 0 <= a < W && a !in PlainWrites(op, s) :: Step(op, t).mem[a] == t.mem[a]
  {
    hide RomOK, Split, Join, LoadWord, StoreWord, Addr, WordSet, InCheck;
    RoomOf(L, t);
    StepTyped(op, s);
    StepTyped(op, t);
    if op.Lw? {
      var b := Addr(s.regs[op.rs1], op.off);
      forall x | x in WordSet(b)
        ensures 0 <= x < W && s.mem[x] == t.mem[x]
      {
        assert x in PlainReads(op, s);
      }
      LoadSame(s.mem, t.mem, b);
    } else if op.Lbu? {
      assert Addr(s.regs[op.rs1], op.off) in PlainReads(op, s);
    } else if op.Sw? {
      forall a | 0 <= a < W
        ensures a in PlainWrites(op, s) || t.mem[a] == s.mem[a] ==> Step(op, t).mem[a] == Step(op, s).mem[a]
        ensures a !in PlainWrites(op, s) ==> Step(op, t).mem[a] == t.mem[a]
      {
        var w, b := Split(s.regs[op.rs2]), Addr(s.regs[op.rs1], op.off);
        if a in WordSet(b) || t.mem[a] == s.mem[a] {
          StoreSame(s.mem, t.mem, b, w, a);
        } else {
          StoreSame(t.mem, t.mem, b, w, a);
        }
      }
    }
  }
}
