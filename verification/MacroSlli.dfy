/** slli by any constant (inst-replace.h:526-552), and the sub-word memory accesses (570-601). */
module MacroSlli {
  import opened Bits
  import opened Machine
  import opened Scratch
  import opened MiniRv
  import opened Tables
  import opened MacroBasics
  import opened ShiftArith
  import opened Effects
  import opened MacroShift
  import opened MacroShiftRight
  import MacroCompare

  /** What is left of a word moved up by 24 (16) bits is its lowest byte (halfword). */
  lemma Moved(v: int, c: int, m: int, p: int)
    requires c > 0 && m > 0 && c * m == W
    ensures ((c * (v % m)) * p) % W == (v * (c * p)) % W
  {
    var q := v / m;
    assert v == q * m + v % m;
    assert v * (c * p) == (q * m) * (c * p) + (v % m) * (c * p);
    assert (q * m) * (c * p) == (q * p) * (c * m) by { Shuffle(q, m, c, p); }
    Assoc(v % m, c, p);
    ModAdd((c * (v % m)) * p, q * p);
  }

  lemma Shuffle(q: int, m: int, c: int, p: int)
    ensures (q * m) * (c * p) == (q * p) * (c * m)
  {
    Assoc(q, m, c * p);
    Assoc(q, p, c * m);
    Assoc(m, c, p);
    Assoc(p, c, m);
  }

  /** The rest of a constant shift once rd has been loaded. */
  lemma SlliRest(rd: Reg, imm: nat, s: State) returns (t: State)
    requires WellTyped(s) && imm < 8
    ensures t == Run(SlliCode(rd, rd, imm), s) && WellTyped(t)
    ensures t == State(SetReg(s.regs, rd, (s.regs[rd] * Pow2(imm)) % W), s.mem)
  {
    hide Pow2, Run;
    if imm == 0 {
      t := s;
      RunNothing(s);
      PowZero();
      assert SlliCode(rd, rd, 0) == [];
    } else {
      t := SlliRuns(rd, rd, imm, s);
    }
  }

  lemma RunNothing(s: State)
    requires WellTyped(s)
    ensures Run([], s) == s
  {
  }

  lemma PowZero()
    ensures Pow2(0) == 1
  {
  }

  lemma SlliHigh(rd: Reg, rs1: Reg, imm: nat, s: State) returns (u: State, t: State)
    requires Room(s) && 24 <= imm < 32
    ensures t == Run(SlliCode(rd, rs1, imm), s) && WellTyped(t) && 0 <= s.regs[rs1]
    ensures Room(u) && Rest(u) == Rest(s) && u.regs == s.regs
    ensures t == State(SetReg(u.regs, rd, Shl32(s.regs[rs1], imm)), u.mem)
  {
    hide Slots, Rest, Run, LoadWord, WellTyped, Split, WithByte, Step, Join, Pow2;
    MacroCompare.RoomRegs(s);
    var v, k := s.regs[rs1], imm - 24;
    ZeroSplit();
    ByteThree(v);
    Powers();
    Pow2Add(24, k);
    var s1 := DoSw(ZERO, VAR_A, s);
    u := DoSb(rs1, VAR_A, 3, s1);
    var s2 := DoLw(rd, VAR_A, u);
    t := SlliRest(rd, k, s2);
    Moved(v, 0x100_0000, 0x100, Pow2(k));
    Run3(SwSlot(ZERO, VAR_A), SbSlot(rs1, VAR_A, 3), LwSlot(rd, VAR_A), s);
    RunAppend([SwSlot(ZERO, VAR_A), SbSlot(rs1, VAR_A, 3), LwSlot(rd, VAR_A)], SlliCode(rd, rd, k), s);
  }

  lemma SlliMiddle(rd: Reg, rs1: Reg, imm: nat, s: State) returns (u: State, t: State)
    requires Room(s) && 16 <= imm < 24 && rd != TP && rs1 != TP
    ensures t == Run(SlliCode(rd, rs1, imm), s) && WellTyped(t) && 0 <= s.regs[rs1]
    ensures Room(u) && Rest(u) == Rest(s) && u.regs == s.regs[TP := u.regs[TP]]
    ensures t == State(SetReg(u.regs, rd, Shl32(s.regs[rs1], imm)), u.mem)
  {
    hide Slots, Rest, Run, LoadWord, WellTyped, Split, WithHalf, Step, Join, Pow2, ShCode;
    MacroCompare.RoomRegs(s);
    var v, k := s.regs[rs1], imm - 16;
    ZeroSplit();
    UpperHalf(Word(0, 0, 0, 0), v);
    Powers();
    Pow2Add(16, k);
    var s1 := DoSw(ZERO, VAR_A, s);
    u := ShSlotRuns(rs1, VAR_A, s1);
    var s2 := DoLw(rd, VAR_A, u);
    t := SlliRest(rd, k, s2);
    Moved(v, 0x1_0000, 0x1_0000, Pow2(k));
    Run1(SwSlot(ZERO, VAR_A), s);
    Run1(LwSlot(rd, VAR_A), u);
    RunTwice(ShCode(rs1, -4 * VAR_A + 2, SP), [LwSlot(rd, VAR_A)], SlliCode(rd, rd, k), s1);
    RunAppend([SwSlot(ZERO, VAR_A)], ShCode(rs1, -4 * VAR_A + 2, SP) + ([LwSlot(rd, VAR_A)] + SlliCode(rd, rd, k)), s);
  }

  lemma SlliLow(rd: Reg, rs1: Reg, imm: nat, s: State) returns (t: State)
    requires Room(s) && imm < 16
    ensures t == Run(SlliCode(rd, rs1, imm), s) && WellTyped(t) && 0 <= s.regs[rs1]
    ensures t == State(SetReg(s.regs, rd, Shl32(s.regs[rs1], imm)), s.mem)
  {
    hide Run, Pow2, Step;
    PowZero();
    if imm == 0 && rd == rs1 {
      t := s;
      RunNothing(s);
      assert SlliCode(rd, rs1, 0) == [];
    } else if imm == 0 {
      var i := Addi(rd, rs1, 0);
      Run1(i, s);
      t := Step(i, s);
      MoveStep(rd, rs1, s);
    } else {
      t := SlliRuns(rd, rs1, imm, s);
    }
  }

  lemma MoveStep(rd: Reg, rs1: Reg, s: State)
    requires WellTyped(s)
    ensures WellTyped(Step(Addi(rd, rs1, 0), s))
    ensures Step(Addi(rd, rs1, 0), s) == State(SetReg(s.regs, rd, s.regs[rs1]), s.mem)
  {
    StepTyped(Addi(rd, rs1, 0), s);
  }

  /** slli for user code: s.regs[rs1] * 2^imm, modulo 2^32. */
  lemma SlliAll(L: Layout, rd: Reg, rs1: Reg, imm: nat, s: State) returns (t: State)
    requires LayoutOK(L) && RomOK(L, s) && imm < 32 && rd != TP && rs1 != TP
    ensures t == Run(SlliCode(rd, rs1, imm), s) && 0 <= s.regs[rs1]
    ensures Effect(L, rd, Shl32(s.regs[rs1], imm), s, t)
  {
    hide Run, Step, LayoutOK, RomOK, WellTyped, Rest, SlliCode, Shl32, Effect;
    RoomOf(L, s);
    var u := s;
    if imm < 16 {
      t := SlliLow(rd, rs1, imm, s);
    } else if imm < 24 {
      u, t := SlliMiddle(rd, rs1, imm, s);
    } else {
      u, t := SlliHigh(rd, rs1, imm, s);
    }
    RomKept(L, s, u);
    EffectBy(L, rd, Shl32(s.regs[rs1], imm), s, u, t);
  }
}
