/** Macros that go on after writing rd, and the destinations they do not suit (inst-replace.h). */
module Destinations {
  import opened Bits
  import opened Machine
  import opened Scratch
  import opened MiniRv
  import opened Tables
  import opened Effects
  import opened MacroBasics
  import opened MacroEqual
  import opened MacroShift
  import opened MacroShiftRight
  import opened MacroLoads
  import opened Rv32
  import opened Expand

  // ---------------------------------------------------------------- seqz and seq: s0 and s1 are restored at the end

  /** The word that POP(r, n) loads when sp is v holds x. */
  predicate Pops(m: seq<int>, v: int, n: Slot, x: int)
    requires |m| == W
  {
    Join(LoadWord(m, Addr(v, -4 * n))) == x
  }

  /** The words below 0 and 1, which wrap around memory, are neither scratch bytes nor in the compare array. */
  ghost predicate EndsClear(L: Layout, s: State)
    requires WellTyped(s)
  {
    Clear(L, s, 0) && forall a | W - 8 <= a < W :: Clear(L, s, a)
  }

  lemma PopsKept(L: Layout, s: State, t: State, v: int, n: Slot, x: int)
    requires Quiet(L, s, t) && EndsClear(L, s) && 0 <= v <= 1 && n <= 2
    ensures Pops(t.mem, v, n, x) <==> Pops(s.mem, v, n, x)
  {
    hide Join;
    var a := W + v - 4 * n;
    assert Addr(v, -4 * n) == a;
    assert Clear(L, s, a % W) && Clear(L, s, (a + 1) % W) && Clear(L, s, (a + 2) % W) && Clear(L, s, (a + 3) % W);
    assert LoadWord(t.mem, a) == LoadWord(s.mem, a);
  }

  /** What seqz needs of a destination: s0 holds the answer already; below the answer m holds the old s0. */
  predicate SeqzFits(rd: Reg, answer: int, s: State, m: seq<int>)
    requires WellTyped(s) && |m| == W
  {
    (rd == S0 ==> s.regs[S0] == answer) && (rd == SP ==> Pops(m, answer, 1, s.regs[S0]))
  }

  /** What seq needs: the same of s0 and s1. */
  predicate SeqFits(rd: Reg, answer: int, s: State, m: seq<int>)
    requires WellTyped(s) && |m| == W
  {
    && (rd == S0 || rd == S1 ==> s.regs[rd] == answer)
    && (rd == SP ==> Pops(m, answer, 1, s.regs[S0]) && Pops(m, answer, 2, s.regs[S1]))
  }

  lemma SpSettles(regs: seq<int>, after: seq<int>, g: int, h: int, v: int, x: int, y: int)
    requires |regs| == 32 && after == regs[GP := g][TP := h][SP := v][S1 := x][S0 := y]
    ensures after == SetReg(regs[GP := after[GP]][TP := after[TP]], SP, v) <==> x == regs[S1] && y == regs[S0]
  {
    var right := SetReg(regs[GP := after[GP]][TP := after[TP]], SP, v);
    assert right[S1] == regs[S1] && right[S0] == regs[S0] && after[S1] == x && after[S0] == y;
  }

  /**
   * inst-replace.h:255-273. Into s0 the result is lost, unless s0 held the answer already. Into sp it arrives, but s0
   * then comes from below the answer: from memory as it was before, unless that is where the macro works.
   */
  lemma SeqzExactly(L: Layout, rd: Reg, rs1: Reg, s: State) returns (t: State)
    requires LayoutOK(L) && RomOK(L, s) && Free(rd)
    ensures t == Run(SeqzCode(L, rd, rs1), s) && WellTyped(t)
    ensures WellTyped(s) && (var answer := Truth(s.regs[rs1] == 0);
             && (Effect(L, rd, answer, s, t) <==> SeqzFits(rd, answer, s, t.mem))
             && (EndsClear(L, s) ==> (Effect(L, rd, answer, s, t) <==> SeqzFits(rd, answer, s, s.mem))))
  {
    hide RomOK, LayoutOK, Run, SeqzCode, Rest, LoadWord, Join, Addr, Quiet;
    RoomOf(L, s);
    var g;
    if rd == SP {
      t, g := SeqzIntoSp(L, rs1, s);
      var answer := Truth(s.regs[rs1] == 0);
      SpSettles(s.regs, t.regs, g, L.same + g, answer, s.regs[S1], Join(LoadWord(t.mem, Addr(answer, -4))));
      if EndsClear(L, s) {
        PopsKept(L, s, t, answer, 1, s.regs[S0]);
      }
    } else {
      t, g := SeqzRuns(L, rd, rs1, s);
      QuietRest(L, s, t);
    }
  }

  /** inst-replace.h:226-247, for s0, s1 and sp. */
  lemma SeqExactly(L: Layout, rd: Reg, rs1: Reg, rs2: Reg, s: State) returns (t: State)
    requires LayoutOK(L) && RomOK(L, s) && CheckApart(L, s) && Free(rd)
    ensures t == Run(SeqCode(L, rd, rs1, rs2), s) && WellTyped(t)
    ensures WellTyped(s) && (var answer := Truth(s.regs[rs1] == s.regs[rs2]);
             && (Effect(L, rd, answer, s, t) <==> SeqFits(rd, answer, s, t.mem))
             && (EndsClear(L, s) ==> (Effect(L, rd, answer, s, t) <==> SeqFits(rd, answer, s, s.mem))))
  {
    hide RomOK, LayoutOK, Run, SeqCode, Rest, Quiet, CheckApart, LoadWord, Join, Addr;
    RoomOf(L, s);
    var g;
    if rd == SP {
      t, g := SeqIntoSp(L, rs1, rs2, s);
      var answer := Truth(s.regs[rs1] == s.regs[rs2]);
      SpSettles(s.regs, t.regs, g, L.same + g, answer, Join(LoadWord(t.mem, Addr(answer, -8))),
                Join(LoadWord(t.mem, Addr(answer, -4))));
      if EndsClear(L, s) {
        PopsKept(L, s, t, answer, 1, s.regs[S0]);
        PopsKept(L, s, t, answer, 2, s.regs[S1]);
      }
    } else {
      t, g := SeqRuns(L, rd, rs1, rs2, s);
    }
  }

  // ---------------------------------------------------------------- msb and lb: a store below sp after rd is written

  /** Nothing but scratch bytes and the compare array has changed. */
  ghost predicate Unspoiled(L: Layout, s: State, m: seq<int>)
    requires WellTyped(s) && |m| == W
  {
    forall a | 0 <= a < W && Clear(L, s, a) :: m[a] == s.mem[a]
  }

  /** What msb leaves in memory when it writes sp: the second store lands below the doubled top byte. */
  function MsbMemory(m: seq<int>, sp: int, v: int): (r: seq<int>)
    requires |m| == W && 0 <= v < W
    ensures |r| == W
  {
    var b := Split(v).b3;
    StoreWord(StoreWord(m, Addr(sp, -4 * VAR_C), Split(v)), Addr(2 * b, -4 * VAR_C), Split(2 * b))
  }

  lemma DoubledTop(rs1: Reg, s: State) returns (u: State)
    requires Room(s)
    ensures u == Run(SlliCode(SP, SP, 1), Run(GetByte(SP, rs1, 3), s)) && WellTyped(u)
    ensures 0 <= s.regs[rs1] < W
    ensures u == State(s.regs[SP := 2 * Split(s.regs[rs1]).b3],
                       StoreWord(s.mem, Addr(s.regs[SP], -4 * VAR_C), Split(s.regs[rs1])))
  {
    hide Split, Pow2, SlliCode, Run, Slots, Rest, StoreWord, LoadWord, GetByte, Addr;
    JoinSplit(s.regs[rs1]);
    var s2 := GetByteRuns(SP, rs1, 3, s);
    GetByteMemory(SP, rs1, 3, s);
    Twice(Split(s.regs[rs1]).b3);
    u := SlliRuns(SP, SP, 1, s2);
  }

  lemma GetByteMemory(rd: Reg, rs1: Reg, k: ByteNo, s: State)
    requires WellTyped(s)
    ensures Run(GetByte(rd, rs1, k), s).mem == StoreWord(s.mem, Addr(s.regs[SP], -4 * VAR_C), Split(s.regs[rs1]))
  {
    hide Split, StoreWord, LoadWord, Run;
    Run2(SwSlot(rs1, VAR_C), LbuSlot(rd, VAR_C, k), s);
  }

  lemma GetByteValue(s: State)
    requires WellTyped(s)
    ensures Run(GetByte(SP, SP, 1), s).regs == s.regs[SP := Split(s.regs[SP]).b1]
  {
    hide Split, LoadWord, Run, StoreWord, Addr;
    Run2(SwSlot(SP, VAR_C), LbuSlot(SP, VAR_C, 1), s);
    AddrNext(s.regs[SP], -4 * VAR_C, 1);
    StoredByte(s.mem, Addr(s.regs[SP], -4 * VAR_C), Split(s.regs[SP]));
  }

  lemma AddrNext(base: int, off: int, k: int)
    ensures Addr(base, off + k) == (Addr(base, off) + k) % W && 0 <= Addr(base, off) < W
  {
    var q := (base + off) / W;
    ModAdd(Addr(base, off) + k, q);
  }

  lemma MsbIntoSp(rs1: Reg, s: State) returns (t: State)
    requires Room(s)
    ensures t == Run(Msb(SP, rs1), s) && WellTyped(t) && 0 <= s.regs[rs1] < W
    ensures t == State(s.regs[SP := SignBit(s.regs[rs1])], MsbMemory(s.mem, s.regs[SP], s.regs[rs1]))
  {
    hide Split, Pow2, SignBit, SlliCode, Run, StoreWord, LoadWord, GetByte, Addr;
    var u := DoubledTop(rs1, s);
    SignBitByte(s.regs[rs1]);
    Twice(Split(s.regs[rs1]).b3);
    GetByteMemory(SP, SP, 1, u);
    GetByteValue(u);
    t := Run(GetByte(SP, SP, 1), u);
    RunAppend(SlliCode(SP, SP, 1), GetByte(SP, SP, 1), Run(GetByte(SP, rs1, 3), s));
    RunAppend(GetByte(SP, rs1, 3), SlliCode(SP, SP, 1) + GetByte(SP, SP, 1), s);
  }

  lemma Twice(b: int)
    requires 0 <= b < 256
    ensures (b * Pow2(1)) % W == 2 * b
  {
    assert Pow2(1) == 2;
  }

  lemma StoredByte(m: seq<int>, a: int, w: Word)
    requires |m| == W && 0 <= a < W
    ensures StoreWord(m, a, w)[(a + 1) % W] == w.b1 && |StoreWord(m, a, w)| == W
  {
  }

  /**
   * inst-replace.h:122-126 and 667-669: the sign arrives in every destination, but into sp the second store goes below
   * the doubled top byte, not below the stack: that is right exactly when it changes nothing there.
   */
  lemma SltzExactly(L: Layout, rd: Reg, rs1: Reg, s: State) returns (t: State)
    requires LayoutOK(L) && RomOK(L, s) && Free(rd)
    ensures t == Run(Msb(rd, rs1), s) && WellTyped(t) && 0 <= s.regs[rs1] < W
    ensures t.regs == SetReg(s.regs, rd, Truth(Signed32(s.regs[rs1]) < 0))
    ensures Effect(L, rd, Truth(Signed32(s.regs[rs1]) < 0), s, t)
            <==> (rd == SP ==> Unspoiled(L, s, MsbMemory(s.mem, s.regs[SP], s.regs[rs1])))
  {
    hide LayoutOK, RomOK, Run, Msb, Rest, MsbMemory;
    RoomOf(L, s);
    if rd == SP {
      t := MsbIntoSp(rs1, s);
    } else {
      var w;
      t, w := MsbRuns(rd, rs1, s);
      QuietRest(L, s, t);
    }
  }

  /**
   * What lb leaves in memory when it writes sp with the byte b: the byte goes below b, and the word loaded from there
   * goes below itself.
   */
  function LbMemory(m: seq<int>, sp: int, b: int): (r: seq<int>)
    requires |m| == W && 0 <= b < 256
    ensures |r| == W
  {
    var m1 := StoreWord(m, Addr(sp, -4 * VAR_A), Split(0));
    var m2 := m1[Addr(b, -4 * VAR_A + 3) := b];
    var x := Join(LoadWord(m2, Addr(b, -4 * VAR_A)));
    StoreWord(m2, Addr(x, -4 * VAR_A), Split(x))
  }

  lemma LbIntoSp(L: Layout, off: Imm, rs1: Reg, s: State) returns (t: State)
    requires LayoutOK(L) && Room(s) && !InScratch(s, Addr(s.regs[rs1], off))
    ensures t == Run(LbCode(L, SP, off, rs1), s) && WellTyped(t)
    ensures |s.mem| == W && 0 <= LoadByte(s, s.regs[rs1], off) < 256
    ensures (var b := LoadByte(s, s.regs[rs1], off);
             && t.mem == LbMemory(s.mem, s.regs[SP], b)
             && t.regs == s.regs[TP := t.regs[TP]][SP := Join(LoadWord(t.mem, Addr(SraEntry(L, b), 0)))])
  {
    hide LayoutOK, Run, Split, Join, LoadWord, StoreWord, Addr, RightImmCode, Slots, Rest;
    var i, j, k, l := SwSlot(ZERO, VAR_A), Lbu(SP, off, rs1), SbSlot(SP, VAR_A, 3), LwSlot(SP, VAR_A);
    var s1 := DoSw(ZERO, VAR_A, s);
    AddrNext(s.regs[rs1], off, 0);
    RestDecides(s, s1, Addr(s.regs[rs1], off));
    StepTyped(j, s1);
    var s2 := Step(j, s1);
    StepTyped(k, s2);
    var s3 := Step(k, s2);
    StepTyped(l, s3);
    var s4 := Step(l, s3);
    Run4(i, j, k, l, s);
    RunAppend([i, j, k, l], RightImmCode(L, SP, SP, 24, true), s);
    t := SraSp(L, s4);
    TopOfLoaded(s3.mem, s2.regs[SP], s4.regs[SP]);
  }

  /** The word loaded has the byte just stored on top. */
  lemma TopOfLoaded(m: seq<int>, b: int, x: int)
    requires |m| == W && (forall a | 0 <= a < W :: 0 <= m[a] < 256) && 0 <= b < W
    requires x == Join(LoadWord(m, Addr(b, -4 * VAR_A)))
    ensures Split(x).b3 == m[Addr(b, -4 * VAR_A + 3)] && 0 <= Addr(b, -4 * VAR_A + 3) < W
  {
    hide Split, Join;
    SplitJoin(LoadWord(m, Addr(b, -4 * VAR_A)));
    AddrNext(b, -4 * VAR_A, 3);
  }

  /** The fast path of srai stores its operand once and looks its top byte up. */
  lemma SraSp(L: Layout, s: State) returns (t: State)
    requires LayoutOK(L) && WellTyped(s)
    ensures t == Run(RightImmCode(L, SP, SP, 24, true), s) && WellTyped(t)
    ensures t.mem == StoreWord(s.mem, Addr(s.regs[SP], -4 * VAR_A), Split(s.regs[SP]))
    ensures t.regs == s.regs[TP := t.regs[TP]][SP := Join(LoadWord(t.mem, Addr(SraEntry(L, Split(s.regs[SP]).b3), 0)))]
  {
    hide LayoutOK, Run, Split, Join, LoadWord, StoreWord, Addr, SlliCode, Pow2, WordAt, Entry;
    var x, base := Split(s.regs[SP]).b3, L.Sra8() + 24 * 1024;
    JoinSplit(s.regs[SP]);
    ShiftLookup(L, SRA, x, 24);
    var i, j := SwSlot(SP, VAR_A), LbuSlot(SP, VAR_A, 3);
    StepTyped(i, s);
    var s1 := Step(i, s);
    RunLa(TP, base, s1);
    var s2 := Run(La(TP, base), s1);
    AddrNext(s.regs[SP], -4 * VAR_A, 3);
    StoredTop(s.mem, Addr(s.regs[SP], -4 * VAR_A), Split(s.regs[SP]));
    Run1(j, s2);
    StepTyped(j, s2);
    var s3 := Run([j], s2);
    var s4 := SlliRuns(SP, SP, 2, s3);
    FourTimes(x);
    SmallSum(base, 4 * x);
    var last := [Machine.Add(TP, TP, SP), Lw(SP, 0, TP)];
    Run2(Machine.Add(TP, TP, SP), Lw(SP, 0, TP), s4);
    StepTyped(Machine.Add(TP, TP, SP), s4);
    var s5 := Step(Machine.Add(TP, TP, SP), s4);
    StepTyped(Lw(SP, 0, TP), s5);
    t := Run(last, s4);
    SpLoaded(s.regs, t.regs, base, x, s5.regs[TP], t.regs[SP]);
    Run1(i, s);
    RunTwice([j], SlliCode(SP, SP, 2), last, s2);
    RunTwice([i], La(TP, base), [j] + (SlliCode(SP, SP, 2) + last), s);
  }

  lemma SpLoaded(regs: seq<int>, after: seq<int>, a: int, x: int, b: int, y: int)
    requires |regs| == 32 && after == regs[TP := a][SP := x][SP := 4 * x][TP := b][SP := y]
    ensures after == regs[TP := after[TP]][SP := y]
  {
  }

  /** Where the entry for the top byte x lies. */
  function SraEntry(L: Layout, x: int): int {
    L.Sra8() + 24 * 1024 + 4 * x
  }

  lemma StoredTop(m: seq<int>, a: int, w: Word)
    requires |m| == W && 0 <= a < W
    ensures StoreWord(m, a, w)[(a + 3) % W] == w.b3 && |StoreWord(m, a, w)| == W
  {
  }

  /** A ROM entry read from a memory that has not lost it. */
  lemma RomIntact(L: Layout, s: State, t: State, a: int, v: int)
    requires LayoutOK(L) && RomOK(L, s) && WellTyped(t) && Unspoiled(L, s, t.mem) && WordAt(L.rom, a, v) && 0 <= v < W
    ensures Join(LoadWord(t.mem, Addr(a, 0))) == v
  {
    hide Join, LoadWord, Split;
    var w := Split(v);
    ByteIntact(L, s, t, a, w.b0);
    ByteIntact(L, s, t, a + 1, w.b1);
    ByteIntact(L, s, t, a + 2, w.b2);
    ByteIntact(L, s, t, a + 3, w.b3);
    RomLoad(t.mem, a, w);
    JoinSplit(v);
  }

  lemma ByteIntact(L: Layout, s: State, t: State, a: int, v: int)
    requires LayoutOK(L) && RomOK(L, s) && WellTyped(t) && Unspoiled(L, s, t.mem) && ByteAt(L.rom, a, v)
    ensures 0 <= a < W && t.mem[a] == v
  {
    assert Holds(L, s, a) && RomAddress(L, a) && Clear(L, s, a);
  }

  /** inst-replace.h:570-576 for sp: lb is right exactly when its two stray stores change nothing. */
  lemma LbExactly(L: Layout, off: Imm, rs1: Reg, s: State) returns (t: State)
    requires LayoutOK(L) && RomOK(L, s) && !InScratch(s, Addr(s.regs[rs1], off))
    ensures t == Run(LbCode(L, SP, off, rs1), s) && WellTyped(t) && WellTyped(s)
    ensures 0 <= LoadByte(s, s.regs[rs1], off) < 256
    ensures t.mem == LbMemory(s.mem, s.regs[SP], LoadByte(s, s.regs[rs1], off))
    ensures Effect(L, SP, SignExtend8(LoadByte(s, s.regs[rs1], off)), s, t) <==> Unspoiled(L, s, t.mem)
  {
    hide LayoutOK, RomOK, Run, LbCode, Slots, Rest, LbMemory, Join, LoadWord, Addr, WordAt, Entry, SignExtend8, Sar32,
         LoadByte;
    RoomOf(L, s);
    var b := LoadByte(s, s.regs[rs1], off);
    t := LbIntoSp(L, off, rs1, s);
    ShiftLookup(L, SRA, b, 24);
    SarTop(b, 0);
    EntryTop(b);
    if Unspoiled(L, s, t.mem) {
      RomIntact(L, s, t, SraEntry(L, b), Entry(SRA, b, 24));
    }
  }

  lemma EntryTop(b: int)
    requires 0 <= b < 256
    ensures Entry(SRA, b, 24) == Sar32(0x100_0000 * b, 24)
  {
    hide Sar32;
  }

  // ---------------------------------------------------------------- which destinations suit

  /** lb works into rd, whatever it loads and from wherever. */
  ghost predicate LbWorks(L: Layout, rd: Reg) {
    forall off: Imm, rs1: Reg, s: State :: LbInput(L, off, rs1, s) ==> LbRight(L, rd, off, rs1, s)
  }

  ghost predicate LbInput(L: Layout, off: Imm, rs1: Reg, s: State) {
    WellTyped(s) && LayoutOK(L) && RomOK(L, s) && Free(rs1) && Clear(L, s, Addr(s.regs[rs1], off))
  }

  ghost predicate LbRight(L: Layout, rd: Reg, off: Imm, rs1: Reg, s: State)
    requires WellTyped(s)
  {
    Effect(L, rd, SignExtend8(LoadByte(s, s.regs[rs1], off)), s, Run(LbCode(L, rd, off, rs1), s))
  }

  lemma LbSuits(L: Layout, rd: Reg)
    requires Free(rd) && rd != SP
    ensures LbWorks(L, rd)
  {
    hide LayoutOK, RomOK, LbCode, Run, Effect, WellTyped;
    forall off: Imm, rs1: Reg, s: State | LbInput(L, off, rs1, s)
      ensures LbRight(L, rd, off, rs1, s)
    {
      var t := LoadByteRuns(L, rd, off, rs1, s);
    }
  }

  /** sltz works into rd, whatever it compares. */
  ghost predicate SltzWorks(L: Layout, rd: Reg) {
    forall rs1: Reg, s: State :: SltzInput(L, rs1, s) ==> SltzRight(L, rd, rs1, s)
  }

  ghost predicate SltzInput(L: Layout, rs1: Reg, s: State) {
    WellTyped(s) && LayoutOK(L) && RomOK(L, s) && Free(rs1)
  }

  ghost predicate SltzRight(L: Layout, rd: Reg, rs1: Reg, s: State)
    requires WellTyped(s)
  {
    Effect(L, rd, Truth(Signed32(s.regs[rs1]) < 0), s, Run(Msb(rd, rs1), s))
  }

  lemma SltzSuits(L: Layout, rd: Reg)
    requires Free(rd) && rd != SP
    ensures SltzWorks(L, rd)
  {
    hide LayoutOK, RomOK, Msb, Run, Effect, WellTyped;
    forall rs1: Reg, s: State | SltzInput(L, rs1, s)
      ensures SltzRight(L, rd, rs1, s)
    {
      var t := SltzEffect(L, rd, rs1, s);
    }
  }

  /** seqz works into rd, whatever it compares. */
  ghost predicate SeqzWorks(L: Layout, rd: Reg) {
    forall rs1: Reg, s: State :: SltzInput(L, rs1, s) ==> SeqzRight(L, rd, rs1, s)
  }

  ghost predicate SeqzRight(L: Layout, rd: Reg, rs1: Reg, s: State)
    requires WellTyped(s)
  {
    Effect(L, rd, Truth(s.regs[rs1] == 0), s, Run(SeqzCode(L, rd, rs1), s))
  }

  lemma SeqzSuits(L: Layout, rd: Reg)
    requires Free(rd) && rd != SP && rd != S0
    ensures SeqzWorks(L, rd)
  {
    hide LayoutOK, RomOK, SeqzCode, Run, Effect, WellTyped, Pops;
    forall rs1: Reg, s: State | SltzInput(L, rs1, s)
      ensures SeqzRight(L, rd, rs1, s)
    {
      var t := SeqzExactly(L, rd, rs1, s);
    }
  }

  /** seq works into rd, whatever it compares. */
  ghost predicate SeqWorks(L: Layout, rd: Reg) {
    forall rs1: Reg, rs2: Reg, s: State :: SeqInput(L, rs1, rs2, s) ==> SeqRight(L, rd, rs1, rs2, s)
  }

  ghost predicate SeqInput(L: Layout, rs1: Reg, rs2: Reg, s: State) {
    SltzInput(L, rs1, s) && CheckApart(L, s) && Free(rs2)
  }

  ghost predicate SeqRight(L: Layout, rd: Reg, rs1: Reg, rs2: Reg, s: State)
    requires WellTyped(s)
  {
    Effect(L, rd, Truth(s.regs[rs1] == s.regs[rs2]), s, Run(SeqCode(L, rd, rs1, rs2), s))
  }

  lemma SeqSuits(L: Layout, rd: Reg)
    requires Free(rd) && rd != SP && rd != S0 && rd != S1
    ensures SeqWorks(L, rd)
  {
    hide LayoutOK, RomOK, SeqCode, Run, Effect, WellTyped, CheckApart, Pops;
    forall rs1: Reg, rs2: Reg, s: State | SeqInput(L, rs1, rs2, s)
      ensures SeqRight(L, rd, rs1, rs2, s)
    {
      var t := SeqExactly(L, rd, rs1, rs2, s);
    }
  }
}
