/** Each instruction's expansion does what the instruction does (inst-replace.h). */
module Expand {
  import opened Bits
  import opened Machine
  import opened Scratch
  import opened MiniRv
  import opened Tables
  import opened Effects
  import opened MacroBasics
  import opened MacroCompare
  import opened MacroLogic
  import opened MacroEqual
  import opened MacroShift
  import opened MacroShiftRight
  import opened MacroSlli
  import opened MacroLoads
  import opened Rv32

  /** Compiled code leaves tp and gp alone (inst-replace.h:6). */
  predicate Free(r: Reg) {
    r != TP && r != GP
  }

  /**
   * What the macros ask of their operands: and, or, xor abort on sp; seqz restores s0 after writing rd; msb and lb
   * store below sp after writing rd; the byte after a halfword's first must be addressable.
   */
  predicate Allowed(rd: Reg, c: Calc) {
    Free(rd) &&
    match c
    case Sub(rs1, rs2) => Free(rs1) && Free(rs2)
    case SetLess(signed, rs1, rs2) => Free(rs1) && Free(rs2)
    case SetLessImm(signed, rs1, imm) => Free(rs1)
    case Bitwise(bits, rs1, rs2) => Free(rs1) && Free(rs2) && rd != SP && rs1 != SP && rs2 != SP
    case BitwiseImm(bits, rs1, imm) => Free(rs1) && rd != SP && rs1 != SP
    case ShiftReg(kind, rs1, rs2) => Free(rs1) && Free(rs2)
    case ShiftImm(kind, rs1, shamt) => Free(rs1)
    case Lb(off, rs1) => Free(rs1) && rd != SP
    case Lh(off, rs1) => Free(rs1) && off < 2047
    case Lhu(off, rs1) => Free(rs1) && off < 2047
    case Seqz(rs1) => Free(rs1) && rd != SP && rd != S0
    case Not(rs1) => Free(rs1)
    case Sltz(rs1) => Free(rs1) && rd != SP
  }

  function SltTable(L: Layout, signed: bool): int {
    if signed then L.slt1 else L.sltu1
  }

  /** inst-replace.h:80-85: li tp, imm in front of the register form. */
  function LoadImm(imm: Imm): seq<Base> {
    [Addi(TP, ZERO, imm)]
  }

  function CalcCode(L: Layout, rd: Reg, c: Calc): seq<Base>
    requires Allowed(rd, c)
  {
    match c
    case Sub(rs1, rs2) => SubCode(L, rd, rs1, rs2)
    case SetLess(signed, rs1, rs2) => SltCode(L, SltTable(L, signed), rd, rs1, rs2)
    case SetLessImm(signed, rs1, imm) => LoadImm(imm) + SltCode(L, SltTable(L, signed), rd, rs1, TP)
    case Bitwise(bits, rs1, rs2) => LogicCode(LogicTable(L, bits), rd, rs1, rs2)
    case BitwiseImm(bits, rs1, imm) => LoadImm(imm) + LogicCode(LogicTable(L, bits), rd, rs1, TP)
    case ShiftReg(kind, rs1, rs2) => if kind == SLL then SllCode(L, rd, rs1, rs2)
        else RightCode(L, rd, rs1, rs2, kind == SRA)
    case ShiftImm(kind, rs1, shamt) => if kind == SLL then SlliCode(rd, rs1, shamt)
        else RightImmCode(L, rd, rs1, shamt, kind == SRA)
    case Lb(off, rs1) => LbCode(L, rd, off, rs1)
    case Lh(off, rs1) => LhCode(L, rd, off, rs1)
    case Lhu(off, rs1) => LhuCode(rd, off, rs1)
    case Seqz(rs1) => SeqzCode(L, rd, rs1)
    case Not(rs1) => NotCode(L, rd, rs1)
    case Sltz(rs1) => Msb(rd, rs1)
  }

  /** The addresses a computation reads. */
  function Reads(c: Calc, s: State): set<int>
    requires WellTyped(s)
  {
    match c
    case Lb(off, rs1) => {Addr(s.regs[rs1], off)}
    case Lh(off, rs1) => {Addr(s.regs[rs1], off), Addr(s.regs[rs1], off + 1)}
    case Lhu(off, rs1) => {Addr(s.regs[rs1], off), Addr(s.regs[rs1], off + 1)}
    case _ => {}
  }

  ghost predicate InCheck(L: Layout, a: int) {
    L.check <= a < L.check + 256
  }

  ghost predicate Clear(L: Layout, s: State, a: int)
    requires WellTyped(s)
  {
    !InScratch(s, a) && !InCheck(L, a)
  }

  // ---------------------------------------------------------------- one macro at a time

  lemma LessRuns(L: Layout, signed: bool, rd: Reg, rs1: Reg, rs2: Reg, s: State) returns (t: State)
    requires LayoutOK(L) && RomOK(L, s)
    ensures t == Run(SltCode(L, SltTable(L, signed), rd, rs1, rs2), s)
    ensures Effect(L, rd, Less(signed, s.regs[rs1], s.regs[rs2]), s, t)
  {
    hide RomOK, Slots, Rest, Run, Step, LoadWord, WellTyped, SltCode, Signed32, SignIndex, BytesAt;
    RoomOf(L, s);
    SignsDecide(s.regs[rs1], s.regs[rs2]);
    t := SltRuns(L, SltTable(L, signed), if signed then SLT_TABLE else SLTU_TABLE, rd, rs1, rs2, s);
  }

  lemma LiRuns(L: Layout, imm: Imm, s: State) returns (t: State)
    requires RomOK(L, s)
    ensures t == Run(LoadImm(imm), s) && RomOK(L, t) && Rest(t) == Rest(s) && t.regs == s.regs[TP := imm % W]
    ensures Quiet(L, s, t)
  {
    hide RomOK, Slots, Rest, Run, Step, LoadWord, WellTyped, Quiet;
    RoomOf(L, s);
    t := DoAddi(TP, ZERO, imm, s);
    Run1(Addi(TP, ZERO, imm), s);
    RomKept(L, s, t);
    QuietRest(L, s, t);
  }

  lemma AfterLi(L: Layout, rd: Reg, v: int, x: int, s: State, s1: State, t: State)
    requires WellTyped(s) && Quiet(L, s, s1) && s1.regs == s.regs[TP := x] && Effect(L, rd, v, s1, t)
    ensures Effect(L, rd, v, s, t)
  {
    QuietTrans(L, s, s1, t);
  }

  lemma LessImmRuns(L: Layout, signed: bool, rd: Reg, rs1: Reg, imm: Imm, s: State) returns (t: State)
    requires LayoutOK(L) && RomOK(L, s) && Free(rs1)
    ensures t == Run(LoadImm(imm) + SltCode(L, SltTable(L, signed), rd, rs1, TP), s)
    ensures Effect(L, rd, Less(signed, s.regs[rs1], imm % W), s, t)
  {
    hide RomOK, LayoutOK, Run, WellTyped, SltCode, Less, LoadImm, Effect, Quiet, Rest;
    RoomOf(L, s);
    var s1 := LiRuns(L, imm, s);
    t := LessRuns(L, signed, rd, rs1, TP, s1);
    RunAppend(LoadImm(imm), SltCode(L, SltTable(L, signed), rd, rs1, TP), s);
    AfterLi(L, rd, Less(signed, s.regs[rs1], imm % W), imm % W, s, s1, t);
  }

  lemma BitwiseRuns(L: Layout, op: Logic, rd: Reg, rs1: Reg, rs2: Reg, s: State) returns (t: State)
    requires LayoutOK(L) && RomOK(L, s) && rd != SP && rd != TP
    ensures t == Run(LogicCode(LogicTable(L, op), rd, rs1, rs2), s) && 0 <= s.regs[rs1] && 0 <= s.regs[rs2]
    ensures Effect(L, rd, BitOp(op, s.regs[rs1], s.regs[rs2]), s, t)
  {
    hide RomOK, LayoutOK, Run, LogicCode, BitOp, Rest;
    RoomOf(L, s);
    var z;
    t, z := LogicRuns(L, op, rd, rs1, rs2, s);
    QuietRest(L, s, t);
  }

  lemma BitwiseImmRuns(L: Layout, op: Logic, rd: Reg, rs1: Reg, imm: Imm, s: State) returns (t: State)
    requires LayoutOK(L) && RomOK(L, s) && rd != SP && rd != TP && Free(rs1)
    ensures t == Run(LoadImm(imm) + LogicCode(LogicTable(L, op), rd, rs1, TP), s) && 0 <= s.regs[rs1]
    ensures Effect(L, rd, BitOp(op, s.regs[rs1], imm % W), s, t)
  {
    hide RomOK, LayoutOK, Run, WellTyped, LogicCode, BitOp, LoadImm, Effect, Quiet, Rest, LogicTable;
    RoomOf(L, s);
    var s1 := LiRuns(L, imm, s);
    t := BitwiseRuns(L, op, rd, rs1, TP, s1);
    RunAppend(LoadImm(imm), LogicCode(LogicTable(L, op), rd, rs1, TP), s);
    AfterLi(L, rd, BitOp(op, s.regs[rs1], imm % W), imm % W, s, s1, t);
  }

  lemma ShiftRuns(L: Layout, kind: Shift, rd: Reg, rs1: Reg, rs2: Reg, s: State) returns (t: State)
    requires LayoutOK(L) && RomOK(L, s)
    ensures t == Run(if kind == SLL then SllCode(L, rd, rs1, rs2) else RightCode(L, rd, rs1, rs2, kind == SRA), s)
    ensures 0 <= s.regs[rs1] && 0 <= s.regs[rs2] && Effect(L, rd, ShiftOp(kind, s.regs[rs1], s.regs[rs2] % 32), s, t)
  {
    hide RomOK, LayoutOK, Run, SllCode, RightCode, Effect, Shl32, Shr, Sar32;
    RoomOf(L, s);
    if kind == SLL {
      t := SllRuns(L, rd, rs1, rs2, s);
    } else {
      t := RightRuns(L, rd, rs1, rs2, kind == SRA, s);
    }
  }

  lemma ShiftImmRuns(L: Layout, kind: Shift, rd: Reg, rs1: Reg, shamt: Shamt, s: State) returns (t: State)
    requires LayoutOK(L) && RomOK(L, s) && Allowed(rd, ShiftImm(kind, rs1, shamt))
    ensures t == Run(CalcCode(L, rd, ShiftImm(kind, rs1, shamt)), s)
    ensures 0 <= s.regs[rs1] && Effect(L, rd, ShiftOp(kind, s.regs[rs1], shamt), s, t)
  {
    hide RomOK, LayoutOK, Run, SlliCode, RightImmCode, Effect, Shl32, Shr, Sar32;
    RoomOf(L, s);
    if kind == SLL {
      t := SlliAll(L, rd, rs1, shamt, s);
    } else {
      t := RightImmRuns(L, rd, rs1, shamt, kind == SRA, s);
    }
  }

  lemma LoadByteRuns(L: Layout, rd: Reg, off: Imm, rs1: Reg, s: State) returns (t: State)
    requires LayoutOK(L) && RomOK(L, s) && rd != SP && Free(rd) && !InScratch(s, Addr(s.regs[rs1], off))
    ensures t == Run(LbCode(L, rd, off, rs1), s) && Effect(L, rd, SignExtend8(LoadByte(s, s.regs[rs1], off)), s, t)
  {
    hide RomOK, LayoutOK, Run, LbCode, SignExtend8, Addr, Quiet;
    RoomOf(L, s);
    if rd == ZERO {
      t := LbZeroRuns(L, off, rs1, s);
    } else {
      t := LbRuns(L, rd, off, rs1, Addr(s.regs[rs1], off), s);
    }
  }

  lemma SeqzEffect(L: Layout, rd: Reg, rs1: Reg, s: State) returns (t: State)
    requires LayoutOK(L) && RomOK(L, s) && rd != SP && rd != S0
    ensures t == Run(SeqzCode(L, rd, rs1), s) && Effect(L, rd, Truth(s.regs[rs1] == 0), s, t)
  {
    hide RomOK, LayoutOK, Run, SeqzCode, Rest;
    RoomOf(L, s);
    var g;
    t, g := SeqzRuns(L, rd, rs1, s);
    QuietRest(L, s, t);
  }

  lemma NotEffect(L: Layout, rd: Reg, rs1: Reg, s: State) returns (t: State)
    requires LayoutOK(L) && RomOK(L, s) && Free(rd)
    ensures t == Run(NotCode(L, rd, rs1), s) && Effect(L, rd, W - 1 - s.regs[rs1], s, t)
  {
    hide LayoutOK, RomOK, Run, NotCode, Rest, Effect;
    RoomOf(L, s);
    var slots;
    t, slots := NotRuns(L, rd, rs1, s);
  }

  lemma SltzEffect(L: Layout, rd: Reg, rs1: Reg, s: State) returns (t: State)
    requires LayoutOK(L) && RomOK(L, s) && rd != SP
    ensures t == Run(Msb(rd, rs1), s) && Effect(L, rd, Truth(Signed32(s.regs[rs1]) < 0), s, t)
  {
    hide LayoutOK, Run, Msb, Rest;
    RoomOf(L, s);
    var w;
    t, w := MsbRuns(rd, rs1, s);
    QuietRest(L, s, t);
  }

  /**
   * Every computing macro: rd gets the instruction's value, and besides rd only gp, tp, the scratch bytes and the
   * compare array may change.
   */
  lemma CalcRuns(L: Layout, rd: Reg, c: Calc, s: State) returns (t: State)
    requires LayoutOK(L) && RomOK(L, s) && Allowed(rd, c) && forall a | a in Reads(c, s) :: Clear(L, s, a)
    ensures t == Run(CalcCode(L, rd, c), s) && Effect(L, rd, Value(c, s), s, t)
  {
    hide LayoutOK, RomOK, Run, Effect, Less, BitOp, ShiftOp, SubCode, SltCode, LogicCode, SllCode, RightCode, LbCode,
         LhCode, LhuCode, SeqzCode, NotCode, Msb, Addr, SignExtend8, SignExtend16, LogicTable, SltTable, LoadImm;
    RoomOf(L, s);
    match c {
      case Sub(rs1, rs2) =>
        var slots;
        t, slots := SubRuns(L, rd, rs1, rs2, s);
      case SetLess(signed, rs1, rs2) => t := LessRuns(L, signed, rd, rs1, rs2, s);
      case SetLessImm(signed, rs1, imm) => t := LessImmRuns(L, signed, rd, rs1, imm, s);
      case Bitwise(bits, rs1, rs2) => t := BitwiseRuns(L, bits, rd, rs1, rs2, s);
      case BitwiseImm(bits, rs1, imm) => t := BitwiseImmRuns(L, bits, rd, rs1, imm, s);
      case ShiftReg(kind, rs1, rs2) => t := ShiftRuns(L, kind, rd, rs1, rs2, s);
      case ShiftImm(kind, rs1, shamt) => t := ShiftImmRuns(L, kind, rd, rs1, shamt, s);
      case Lb(off, rs1) =>
        assert Addr(s.regs[rs1], off) in Reads(c, s);
        t := LoadByteRuns(L, rd, off, rs1, s);
      case Lh(off, rs1) =>
        assert Addr(s.regs[rs1], off) in Reads(c, s) && Addr(s.regs[rs1], off + 1) in Reads(c, s);
        t := LhRuns(L, rd, off, rs1, Addr(s.regs[rs1], off), Addr(s.regs[rs1], off + 1), s);
      case Lhu(off, rs1) =>
        assert Addr(s.regs[rs1], off) in Reads(c, s) && Addr(s.regs[rs1], off + 1) in Reads(c, s);
        t := LhuRuns(L, rd, off, rs1, Addr(s.regs[rs1], off), Addr(s.regs[rs1], off + 1), s);
      case Seqz(rs1) => t := SeqzEffect(L, rd, rs1, s);
      case Not(rs1) => t := NotEffect(L, rd, rs1, s);
      case Sltz(rs1) => t := SltzEffect(L, rd, rs1, s);
    }
  }
}
