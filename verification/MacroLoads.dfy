/** lb, lh, lhu and sh by bytes (inst-replace.h:570-601). */
module MacroLoads {
  import opened Bits
  import opened Machine
  import opened Scratch
  import opened MiniRv
  import opened Tables
  import opened MacroBasics
  import opened ShiftArith
  import opened Effects
  import opened MacroShift
  import opened MacroShiftRight
  import MacroCompare
  import opened MacroEqual

  /** RISC-V Unprivileged ISA, section 2.6: a byte sign-extended to 32 bits. */
  function SignExtend8(b: int): int {
    if b < 128 then b else b + W - 256
  }

  /** The halfword h sign-extended to 32 bits. */
  function SignExtend16(h: int): int {
    if h < 0x8000 then h else h + W - 0x1_0000
  }

  lemma SarTop(b: int, c: int)
    requires 0 <= b < 256 && 0 <= c < 256
    ensures Sar32(0x100_0000 * b, 24) == SignExtend8(b)
    ensures 0 <= Sar32(0x100_0000 * b, 16) && (c + Sar32(0x100_0000 * b, 16)) % W == SignExtend16(c + 0x100 * b)
  {
    Powers();
    hide Pow2;
    var sb := if b < 128 then b else b - 256;
    assert Signed32(0x100_0000 * b) == 0x100_0000 * sb;
    IntDivMod(0x100_0000 * sb, 0x100_0000, sb, 0);
    IntDivMod(0x100_0000 * sb, 0x1_0000, 0x100 * sb, 0);
  }

  /** A byte outside the scratch bytes is read alike after scratch work. */
  lemma DoLbuFar(rd: Reg, off: int, rs1: Reg, a: int, s: State, u: State) returns (t: State)
    requires -2048 <= off < 2048 && Room(s) && Room(u) && u.regs[SP] == s.regs[SP] && Rest(u) == Rest(s)
    requires a == Addr(u.regs[rs1], off) && !InScratch(s, a)
    ensures t == Step(Lbu(rd, off, rs1), u) && WellTyped(t) && |s.mem| == W && 0 <= a < W && 0 <= s.mem[a] < 256
    ensures t == State(SetReg(u.regs, rd, s.mem[a]), u.mem)
    ensures rd != SP ==> Room(t) && Apart(t) == Apart(u).(regs := SetReg(u.regs, rd, s.mem[a]))
  {
    hide Slots, Rest, LoadWord;
    t := Step(Lbu(rd, off, rs1), u);
    StepTyped(Lbu(rd, off, rs1), u);
    RestDecides(s, u, a);
    if rd != SP {
      RegOnly(u, t, rd, s.mem[a]);
    }
  }

  lemma SmallByte(b: int)
    requires 0 <= b < 256
    ensures b % 256 == b
  {
  }

  lemma ByteInTop(b: int)
    requires 0 <= b < 256
    ensures Join(WithByte(Split(0), 3, b % 256)) == 0x100_0000 * b
  {
    hide Split;
    ZeroSplit();
    SmallByte(b);
  }

  lemma ByteInSecond(b: int)
    requires 0 <= b < 256
    ensures Join(WithByte(Split(0), 1, b % 256)) == 0x100 * b
  {
    hide Split;
    ZeroSplit();
    SmallByte(b);
  }

  /** The entry of lb and lh: the byte at a lands in the top of rd. */
  lemma TopByteRuns(rd: Reg, off: int, rs1: Reg, a: int, s: State) returns (t: State)
    requires -2048 <= off < 2048 && Room(s) && rd != SP && rd != ZERO && a == Addr(s.regs[rs1], off) && !InScratch(s, a)
    ensures t == Run([SwSlot(ZERO, VAR_A), Lbu(rd, off, rs1), SbSlot(rd, VAR_A, 3), LwSlot(rd, VAR_A)], s)
    ensures Room(t) && Rest(t) == Rest(s) && |s.mem| == W && 0 <= a < W && 0 <= s.mem[a] < 256
    ensures t.regs == s.regs[rd := 0x100_0000 * s.mem[a]]
  {
    hide Slots, Rest, Run, LoadWord, WellTyped, Split, Join, WithByte, Step, Addr;
    MacroCompare.RoomRegs(s);
    var s1 := DoSw(ZERO, VAR_A, s);
    var s2 := DoLbuFar(rd, off, rs1, a, s, s1);
    var s3 := DoSb(rd, VAR_A, 3, s2);
    t := GetLw(rd, VAR_A, s3);
    ByteInTop(s.mem[a]);
    Run4(SwSlot(ZERO, VAR_A), Lbu(rd, off, rs1), SbSlot(rd, VAR_A, 3), LwSlot(rd, VAR_A), s);
  }

  /** inst-replace.h:570-576 */
  lemma LbRuns(L: Layout, rd: Reg, off: Imm, rs1: Reg, a: int, s: State) returns (t: State)
    requires LayoutOK(L) && RomOK(L, s) && rd != SP && rd != TP && rd != ZERO && a == Addr(s.regs[rs1], off)
    requires !InScratch(s, a)
    ensures t == Run(LbCode(L, rd, off, rs1), s) && 0 <= a < W && Effect(L, rd, SignExtend8(s.mem[a]), s, t)
  {
    hide LayoutOK, RomOK, Slots, Rest, Run, LoadWord, WellTyped, Step, Addr, RightImmCode, Sar32, Effect, Quiet;
    RoomOf(L, s);
    var s1 := TopByteRuns(rd, off, rs1, a, s);
    RomKept(L, s, s1);
    SarTop(s.mem[a], 0);
    Ops(0x100_0000 * s.mem[a], 24);
    t := RightImmRuns(L, rd, rd, 24, true, s1);
    RunAppend([SwSlot(ZERO, VAR_A), Lbu(rd, off, rs1), SbSlot(rd, VAR_A, 3), LwSlot(rd, VAR_A)],
              RightImmCode(L, rd, rd, 24, true), s);
    QuietRest(L, s, s1);
    EffectAfter(L, rd, 0x100_0000 * s.mem[a], SignExtend8(s.mem[a]), s, s1, t);
  }

  /** Overwriting rd twice is overwriting it once. */
  lemma EffectAfter(L: Layout, rd: Reg, x: int, v: int, s: State, s1: State, t: State)
    requires WellTyped(s) && Quiet(L, s, s1) && s1.regs == s.regs[rd := x] && Effect(L, rd, v, s1, t) && rd != SP
    requires rd != ZERO
    ensures Effect(L, rd, v, s, t)
  {
    QuietTrans(L, s, s1, t);
  }

  /** Into x0 the loaded value is dropped. */
  lemma LbZeroRuns(L: Layout, off: Imm, rs1: Reg, s: State) returns (t: State)
    requires LayoutOK(L) && RomOK(L, s)
    ensures t == Run(LbCode(L, ZERO, off, rs1), s) && Effect(L, ZERO, 0, s, t)
  {
    hide LayoutOK, RomOK, Slots, Rest, Run, LoadWord, WellTyped, Step, RightImmCode, Sar32, Effect, Quiet, Split,
         WithByte, Join;
    RoomOf(L, s);
    var s1 := DoSw(ZERO, VAR_A, s);
    var i := Lbu(ZERO, off, rs1);
    LbuZero(off, rs1, s1);
    var s3 := DoSb(ZERO, VAR_A, 3, s1);
    LwZero(s3);
    Run4(SwSlot(ZERO, VAR_A), i, SbSlot(ZERO, VAR_A, 3), LwSlot(ZERO, VAR_A), s);
    RomKept(L, s, s3);
    Ops(0, 24);
    t := RightImmRuns(L, ZERO, ZERO, 24, true, s3);
    RunAppend([SwSlot(ZERO, VAR_A), i, SbSlot(ZERO, VAR_A, 3), LwSlot(ZERO, VAR_A)],
              RightImmCode(L, ZERO, ZERO, 24, true), s);
    QuietRest(L, s, s3);
    EffectZero(L, ShiftOp(SRA, 0, 24), s, s3, t);
  }

  lemma LbuZero(off: Imm, rs1: Reg, s: State)
    requires WellTyped(s)
    ensures Step(Lbu(ZERO, off, rs1), s) == s
  {
  }

  lemma LwZero(s: State)
    requires WellTyped(s)
    ensures Step(LwSlot(ZERO, VAR_A), s) == s
  {
  }

  lemma EffectZero(L: Layout, v: int, s: State, s1: State, t: State)
    requires WellTyped(s) && Quiet(L, s, s1) && s1.regs == s.regs && Effect(L, ZERO, v, s1, t)
    ensures Effect(L, ZERO, 0, s, t)
  {
    QuietTrans(L, s, s1, t);
  }

  /** inst-replace.h:578-585 */
  lemma LhuRuns(L: Layout, rd: Reg, off: Imm, rs1: Reg, a: int, b: int, s: State) returns (t: State)
    requires LayoutOK(L) && RomOK(L, s) && off < 2047 && rd != TP && rs1 != TP
    requires a == Addr(s.regs[rs1], off) && b == Addr(s.regs[rs1], off + 1) && !InScratch(s, a) && !InScratch(s, b)
    ensures t == Run(LhuCode(rd, off, rs1), s) && 0 <= a < W && 0 <= b < W
    ensures Effect(L, rd, s.mem[a] + 0x100 * s.mem[b], s, t)
  {
    hide LayoutOK, RomOK, Slots, Rest, Run, LoadWord, WellTyped, Split, Join, WithByte, Addr, Effect;
    RoomOf(L, s);
    var s1 := DoSw(ZERO, VAR_A, s);
    var s2 := DoLbuFar(TP, off + 1, rs1, b, s, s1);
    var s3 := DoSb(TP, VAR_A, 1, s2);
    var s4 := GetLw(TP, VAR_A, s3);
    RomKept(L, s, s4);
    ByteInSecond(s.mem[b]);
    var s5 := DoLbuFar(rd, off, rs1, a, s, s4);
    var i := Machine.Add(rd, rd, TP);
    t := Step(i, s5);
    StepTyped(i, s5);
    Run4(SwSlot(ZERO, VAR_A), Lbu(TP, off + 1, rs1), SbSlot(TP, VAR_A, 1), LwSlot(TP, VAR_A), s);
    Run2(Lbu(rd, off, rs1), i, s4);
    RunAppend([SwSlot(ZERO, VAR_A), Lbu(TP, off + 1, rs1), SbSlot(TP, VAR_A, 1), LwSlot(TP, VAR_A)],
              [Lbu(rd, off, rs1), i], s);
    SettleAdd(s4.regs, rd, s.mem[a], 0x100 * s.mem[b]);
    EffectBy(L, rd, s.mem[a] + 0x100 * s.mem[b], s, s4, t);
  }

  lemma SettleAdd(regs: seq<int>, rd: Reg, x: int, y: int)
    requires |regs| == 32 && rd != TP && regs[TP] == y && 0 <= x < 256 && 0 <= y <= 0x100 * 255 && regs[0] == 0
    ensures (var r := SetReg(regs, rd, x); SetReg(r, rd, (r[rd] + r[TP]) % W) == SetReg(regs, rd, x + y))
  {
  }

  /** inst-replace.h:587-595 */
  lemma LhRuns(L: Layout, rd: Reg, off: Imm, rs1: Reg, a: int, b: int, s: State) returns (t: State)
    requires LayoutOK(L) && RomOK(L, s) && off < 2047 && rd != TP && rs1 != TP && rd != GP && rs1 != GP
    requires a == Addr(s.regs[rs1], off) && b == Addr(s.regs[rs1], off + 1) && !InScratch(s, a) && !InScratch(s, b)
    requires !(L.check <= a < L.check + 256)
    ensures t == Run(LhCode(L, rd, off, rs1), s) && 0 <= a < W && 0 <= b < W
    ensures Effect(L, rd, SignExtend16(s.mem[a] + 0x100 * s.mem[b]), s, t)
  {
    hide LayoutOK, RomOK, Slots, Rest, Run, LoadWord, Step, RightImmCode, Sar32, Effect, Quiet, Addr, SignExtend16,
         WellTyped;
    RoomOf(L, s);
    ByteOf(s, s.regs[rs1], off);
    var s1 := TopByteRuns(GP, off + 1, rs1, b, s);
    RomKept(L, s, s1);
    var h := Sar32(0x100_0000 * s.mem[b], 16);
    SarTop(s.mem[b], s.mem[a]);
    Ops(0x100_0000 * s.mem[b], 16);
    var s2 := RightImmRuns(L, GP, GP, 16, true, s1);
    EffectGp(L, h, s1, s2);
    QuietRest(L, s, s1);
    QuietTrans(L, s, s1, s2);
    t := LhLast(L, rd, off, rs1, a, h, s, s2);
    RunTwice([SwSlot(ZERO, VAR_A), Lbu(GP, off + 1, rs1), SbSlot(GP, VAR_A, 3), LwSlot(GP, VAR_A)],
             RightImmCode(L, GP, GP, 16, true), [Lbu(rd, off, rs1), Machine.Add(rd, rd, GP)], s);
  }

  lemma ByteOf(s: State, base: int, off: int)
    requires WellTyped(s)
    ensures |s.mem| == W && 0 <= Addr(base, off) < W && 0 <= s.mem[Addr(base, off)] < 256
  {
  }

  lemma EffectGp(L: Layout, v: int, s: State, t: State)
    requires Effect(L, GP, v, s, t)
    ensures Quiet(L, s, t) && WellTyped(s) && WellTyped(t) && t.regs[GP] == v
    ensures forall r | 0 <= r < 32 && r != GP && r != TP :: t.regs[r] == s.regs[r]
  {
  }

  lemma LhLast(L: Layout, rd: Reg, off: Imm, rs1: Reg, a: int, h: int, s: State, s2: State) returns (t: State)
    requires Quiet(L, s, s2) && rd != TP && rs1 != TP && rd != GP && rs1 != GP && s2.regs[GP] == h
    requires forall r | 0 <= r < 32 && r != GP && r != TP :: s2.regs[r] == s.regs[r]
    requires a == Addr(s.regs[rs1], off) && !InScratch(s, a) && !(L.check <= a < L.check + 256)
    ensures t == Run([Lbu(rd, off, rs1), Machine.Add(rd, rd, GP)], s2) && 0 <= a < W
    ensures Effect(L, rd, (s.mem[a] + h) % W, s, t)
  {
    var i, j := Lbu(rd, off, rs1), Machine.Add(rd, rd, GP);
    Run2(i, j, s2);
    t := Step(j, Step(i, s2));
    StepTyped(i, s2);
    StepTyped(j, Step(i, s2));
    assert s2.mem[a] == s.mem[a];
  }

  /** inst-replace.h:597-601: a halfword store, away from the scratch bytes and the ROM. */
  lemma ShRuns(L: Layout, rs: Reg, off: Imm, base: Reg, a: int, b: int, s: State) returns (t: State)
    requires LayoutOK(L) && RomOK(L, s) && off < 2047 && rs != TP && base != TP
    requires a == Addr(s.regs[base], off) && b == Addr(s.regs[base], off + 1) && !InScratch(s, a) && !InScratch(s, b)
    ensures t == Run(ShCode(rs, off, base), s) && WellTyped(t) && t.regs == s.regs[TP := t.regs[TP]] && 0 <= a < W
    ensures 0 <= b < W
    ensures forall x | 0 <= x < W && !InScratch(s, x) ::
              t.mem[x] == s.mem[a := s.regs[rs] % 256][b := (s.regs[rs] / 256) % 256][x]
  {
    hide LayoutOK, Slots, Rest, Run, LoadWord, GetByte, Split;
    RoomOf(L, s);
    var v := s.regs[rs];
    var s1 := Step(Sb(rs, off, base), s);
    StepTyped(Sb(rs, off, base), s);
    FarByte(s, s1, a, v % 256);
    var s2 := GetByteRuns(TP, rs, 1, s1);
    t := Step(Sb(TP, off + 1, base), s2);
    StepTyped(Sb(TP, off + 1, base), s2);
    Run1(Sb(rs, off, base), s);
    Run1(Sb(TP, off + 1, base), s2);
    RunTwice([Sb(rs, off, base)], GetByte(TP, rs, 1), [Sb(TP, off + 1, base)], s);
    SecondOf(v);
    forall x | 0 <= x < W && !InScratch(s, x)
      ensures t.mem[x] == s.mem[a := v % 256][b := (v / 256) % 256][x]
    {
      RestDecides(s1, s2, x);
    }
  }

  lemma SecondOf(v: int)
    ensures Byte(Split(v), 1) % 256 == (v / 256) % 256
  {
  }
}
