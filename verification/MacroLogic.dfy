/** and, or, xor by byte tables (inst-replace.h:165-210). */
module MacroLogic {
  import opened Bits
  import opened Machine
  import opened Scratch
  import opened MiniRv
  import opened Tables

  datatype Logic = AND | OR | XOR

  function BitOp(op: Logic, a: nat, b: nat): nat {
    match op
    case AND => And(a, b)
    case OR => Or(a, b)
    case XOR => Xor(a, b)
  }

  function LogicTable(L: Layout, op: Logic): int {
    match op
    case AND => L.And8()
    case OR => L.Or8()
    case XOR => L.Xor8()
  }

  lemma BitStep(op: Logic, a: nat, b: nat)
    ensures BitOp(op, a, b) == 2 * BitOp(op, a / 2, b / 2) + BitOp(op, a % 2, b % 2)
    ensures BitOp(op, a % 2, b % 2) <= 1
  {
  }

  /** The operations work on the low k bits and on the rest separately. */
  lemma {:induction false} BitSplit(op: Logic, a: nat, b: nat, k: nat, p: nat)
    requires p == Pow2(k)
    ensures a / p >= 0 && b / p >= 0
    ensures BitOp(op, a, b) == p * BitOp(op, a / p, b / p) + BitOp(op, a % p, b % p)
    ensures BitOp(op, a % p, b % p) < p
    decreases k
  {
    if k == 0 {
      MulDivMod(a, 1, a, 0);
      MulDivMod(b, 1, b, 0);
      assert BitOp(op, 0, 0) == 0;
    } else {
      hide BitOp, Pow2;
      var h := Half(k, p);
      BitSplit(op, a / 2, b / 2, k - 1, h);
      BitStep(op, a, b);
      BitStep(op, a % p, b % p);
      DivMul(a, 2, h);
      DivMul(b, 2, h);
      HalfRemainder(a, h);
      HalfRemainder(b, h);
      Combine(BitOp(op, a, b), BitOp(op, a / p, b / p), BitOp(op, (a / 2) % h, (b / 2) % h), BitOp(op, a % 2, b % 2),
              BitOp(op, a % p, b % p), h);
    }
  }

  lemma Combine(x: nat, u: nat, v: nat, w: nat, z: nat, h: nat)
    requires x == 2 * (h * u + v) + w && z == 2 * v + w && v < h && w <= 1
    ensures x == (2 * h) * u + z && z < 2 * h
  {
    assert (2 * h) * u == 2 * (h * u);
  }

  lemma Half(k: nat, p: nat) returns (h: nat)
    requires k > 0 && p == Pow2(k)
    ensures h == Pow2(k - 1) && p == 2 * h && h > 0
  {
    h := Pow2(k - 1);
  }

  lemma HalfRemainder(a: nat, h: nat)
    requires h > 0
    ensures (a % (2 * h)) / 2 == (a / 2) % h && (a % (2 * h)) % 2 == a % 2
  {
    ModDouble(a, h);
  }

  /** A word operation is four byte operations. */
  lemma WordBytewise(op: Logic, a: int, b: int)
    requires 0 <= a < W && 0 <= b < W
    ensures var x, y := Split(a), Split(b);
            IsWord(x) && IsWord(y)
            && IsWord(Word(BitOp(op, x.b0, y.b0), BitOp(op, x.b1, y.b1), BitOp(op, x.b2, y.b2), BitOp(op, x.b3, y.b3)))
            && Join(Word(BitOp(op, x.b0, y.b0), BitOp(op, x.b1, y.b1), BitOp(op, x.b2, y.b2), BitOp(op, x.b3, y.b3)))
            == BitOp(op, a, b)
  {
    hide BitOp;
    assert Pow2(8) == 256;
    var a1, b1 := a / 256, b / 256;
    var a2, b2 := a1 / 256, b1 / 256;
    BitSplit(op, a, b, 8, 256);
    BitSplit(op, a1, b1, 8, 256);
    BitSplit(op, a2, b2, 8, 256);
    BitSplit(op, a2 / 256, b2 / 256, 8, 256);
    assert a / 0x1_0000 == a2 && a / 0x100_0000 == a2 / 256 && b / 0x1_0000 == b2 && b / 0x100_0000 == b2 / 256;
    assert a2 / 256 < 256 && b2 / 256 < 256;
    assert (a2 / 256) % 256 == a2 / 256 && (b2 / 256) % 256 == b2 / 256;
  }

  lemma LogicLookup(L: Layout, op: Logic, a: int, b: int)
    requires LayoutOK(L) && 0 <= a < 256 && 0 <= b < 256
    ensures ByteAt(L.rom, LogicTable(L, op) + (b + 256 * a), BitOp(op, a, b))
    ensures 0 <= LogicTable(L, op) + (b + 256 * a) < W && 0 <= BitOp(op, a, b) < 256
  {
    assert LogicEntry(L, a, b);
    assert RomAddress(L, LogicTable(L, op) + (b + 256 * a));
    assert Pow2(8) == 256;
    BitSplit(op, a, b, 8, 256);
    MulDivMod(a, 256, 0, a);
    MulDivMod(b, 256, 0, b);
  }

  /** The state in the middle of a logic macro: rd holds the table, A and B the operands, D is a small index. */
  ghost predicate LogicState(L: Layout, op: Logic, rd: Reg, a: Word, b: Word, s: State) {
    && RomOK(L, s) && IsWord(a) && IsWord(b)
    && s.regs[rd] == LogicTable(L, op)
    && Slots(s)[VAR_A] == a && Slots(s)[VAR_B] == b
    && Slots(s)[VAR_D].b2 == 0 && Slots(s)[VAR_D].b3 == 0
  }

  lemma LogicByteRuns(L: Layout, op: Logic, rd: Reg, a: Word, b: Word, k: ByteNo, s: State) returns (t: State)
    requires LayoutOK(L) && rd != SP && rd != TP && rd != ZERO && LogicState(L, op, rd, a, b, s)
    ensures t == Run(LogicByte(rd, k), s) && LogicState(L, op, rd, a, b, t) && Rest(t) == Rest(s)
    ensures t.regs == s.regs[TP := BitOp(op, Byte(a, k), Byte(b, k))]
    ensures Slots(t)[VAR_C] == WithByte(Slots(s)[VAR_C], k, BitOp(op, Byte(a, k), Byte(b, k)))
  {
    hide LayoutOK, RomOK, Slots, Rest, Run, Step, LoadWord, WellTyped, ByteAt, BitOp, LogicTable;
    RoomOf(L, s);
    var x, y := Byte(a, k), Byte(b, k);
    LogicLookup(L, op, x, y);
    var s1 := GetLbu(TP, VAR_A, k, s);
    var s2 := DoSb(TP, VAR_D, 1, s1);
    var s3 := GetLbu(TP, VAR_B, k, s2);
    var s4 := DoSb(TP, VAR_D, 0, s3);
    Run4(LbuSlot(TP, VAR_A, k), SbSlot(TP, VAR_D, 1), LbuSlot(TP, VAR_B, k), SbSlot(TP, VAR_D, 0), s);
    var s5 := GetLw(TP, VAR_D, s4);
    var s6 := DoAdd(TP, rd, TP, s5);
    RomKept(L, s, s6);
    var s7 := GetRomByte(L, TP, TP, BitOp(op, x, y), s6);
    t := DoSb(TP, VAR_C, k, s7);
    Run4(LwSlot(TP, VAR_D), Machine.Add(TP, rd, TP), Lbu(TP, 0, TP), SbSlot(TP, VAR_C, k), s4);
    RunAppend([LbuSlot(TP, VAR_A, k), SbSlot(TP, VAR_D, 1), LbuSlot(TP, VAR_B, k), SbSlot(TP, VAR_D, 0)],
              [LwSlot(TP, VAR_D), Machine.Add(TP, rd, TP), Lbu(TP, 0, TP), SbSlot(TP, VAR_C, k)], s);
    RomKept(L, s, t);
    SettleTp(s.regs, x, y, s5.regs[TP], s6.regs[TP], BitOp(op, x, y));
  }

  lemma SettleTp(regs: seq<int>, a: int, b: int, c: int, d: int, e: int)
    requires |regs| == 32
    ensures SetReg(SetReg(SetReg(SetReg(SetReg(regs, TP, a), TP, b), TP, c), TP, d), TP, e) == regs[TP := e]
  {
  }

  lemma FourLogicBytes(L: Layout, op: Logic, rd: Reg, a: Word, b: Word, s: State) returns (t: State)
    requires LayoutOK(L) && rd != SP && rd != TP && rd != ZERO && LogicState(L, op, rd, a, b, s)
    ensures t == Run(LogicByte(rd, 3)
                     + (LogicByte(rd, 2) + (LogicByte(rd, 1) + (LogicByte(rd, 0) + [LwSlot(rd, VAR_C)]))), s)
    ensures Room(t) && Rest(t) == Rest(s)
    ensures var c := Word(BitOp(op, a.b0, b.b0), BitOp(op, a.b1, b.b1), BitOp(op, a.b2, b.b2), BitOp(op, a.b3, b.b3));
            t.regs == SetReg(s.regs[TP := c.b0], rd, Join(c))
  {
    hide LayoutOK, RomOK, Slots, Rest, Run, Step, LoadWord, WellTyped, LogicByte, BitOp, Join;
    var s1 := LogicByteRuns(L, op, rd, a, b, 3, s);
    var s2 := LogicByteRuns(L, op, rd, a, b, 2, s1);
    var s3 := LogicByteRuns(L, op, rd, a, b, 1, s2);
    var s4 := LogicByteRuns(L, op, rd, a, b, 0, s3);
    RoomOf(L, s);
    RoomOf(L, s4);
    t := GetLw(rd, VAR_C, s4);
    var last := LwSlot(rd, VAR_C);
    Run1(last, s4);
    RunAppend(LogicByte(rd, 0), [last], s3);
    RunAppend(LogicByte(rd, 1), LogicByte(rd, 0) + [last], s2);
    RunAppend(LogicByte(rd, 2), LogicByte(rd, 1) + (LogicByte(rd, 0) + [last]), s1);
    RunAppend(LogicByte(rd, 3), LogicByte(rd, 2) + (LogicByte(rd, 1) + (LogicByte(rd, 0) + [last])), s);
    assert s4.regs == s.regs[TP := BitOp(op, a.b0, b.b0)];
  }

  /** inst-replace.h:176-200: rd = rs1 op rs2; only tp is lost. */
  lemma LogicRuns(L: Layout, op: Logic, rd: Reg, rs1: Reg, rs2: Reg, s: State) returns (t: State, z: int)
    requires LayoutOK(L) && RomOK(L, s) && rd != SP && rd != TP
    ensures t == Run(LogicCode(LogicTable(L, op), rd, rs1, rs2), s) && Room(t) && Rest(t) == Rest(s)
    ensures rd != ZERO ==> t.regs == SetReg(s.regs[TP := z], rd, BitOp(op, s.regs[rs1], s.regs[rs2]))
    ensures rd == ZERO ==> t.regs == s.regs
  {
    if rd == ZERO {
      RoomOf(L, s);
      t, z := s, 0;
    } else {
      t, z := LogicRunsInto(L, op, rd, rs1, rs2, s);
    }
  }

  lemma LogicRunsInto(L: Layout, op: Logic, rd: Reg, rs1: Reg, rs2: Reg, s: State) returns (t: State, z: int)
    requires LayoutOK(L) && RomOK(L, s) && rd != SP && rd != TP && rd != ZERO
    ensures t == Run(LogicCode(LogicTable(L, op), rd, rs1, rs2), s) && Room(t) && Rest(t) == Rest(s)
    ensures t.regs == SetReg(s.regs[TP := z], rd, BitOp(op, s.regs[rs1], s.regs[rs2]))
  {
    hide LayoutOK, RomOK, Slots, Rest, Run, Step, LoadWord, WellTyped, LogicByte, BitOp, Join, Split, La, LogicTable;
    RoomOf(L, s);
    var a, b, table := Split(s.regs[rs1]), Split(s.regs[rs2]), LogicTable(L, op);
    WordBytewise(op, s.regs[rs1], s.regs[rs2]);
    LogicLookup(L, op, 0, 0);
    var s1 := DoSw(rs1, VAR_A, s);
    var s2 := DoSw(rs2, VAR_B, s1);
    Run2(SwSlot(rs1, VAR_A), SwSlot(rs2, VAR_B), s);
    var s3 := DoLa(rd, table, s2);
    var s4 := DoSw(ZERO, VAR_D, s3);
    Run1(SwSlot(ZERO, VAR_D), s3);
    RomKept(L, s, s4);
    ZeroWord();
    t := FourLogicBytes(L, op, rd, a, b, s4);
    var rest := LogicByte(rd, 3) + (LogicByte(rd, 2) + (LogicByte(rd, 1) + (LogicByte(rd, 0) + [LwSlot(rd, VAR_C)])));
    RunAppend([SwSlot(ZERO, VAR_D)], rest, s3);
    RunAppend(La(rd, table), [SwSlot(ZERO, VAR_D)] + rest, s2);
    RunAppend([SwSlot(rs1, VAR_A), SwSlot(rs2, VAR_B)], La(rd, table) + ([SwSlot(ZERO, VAR_D)] + rest), s);
    z := t.regs[TP];
    SettleRd(s.regs, rd, table, z, BitOp(op, s.regs[rs1], s.regs[rs2]));
  }

  lemma SettleRd(regs: seq<int>, rd: Reg, x: int, z: int, v: int)
    requires |regs| == 32 && rd != ZERO && rd != TP
    ensures SetReg(SetReg(regs, rd, x)[TP := z], rd, v) == SetReg(regs[TP := z], rd, v)
  {
  }

  lemma ZeroWord()
    ensures Split(0) == Word(0, 0, 0, 0)
  {
  }
}
