/** The instructions a compiler emits, with the meaning the RISC-V Unprivileged ISA gives them (sections 2.4 to 2.6). */
module Rv32 {
  import opened Bits
  import opened Machine
  import opened MiniRv
  import opened Tables
  import opened MacroLogic
  import opened MacroShift
  import opened MacroLoads
  import opened ShiftArith

  type Shamt = k: nat | k < 32

  /** What a register-writing instruction computes. */
  datatype Calc =
    | Sub(rs1: Reg, rs2: Reg)
    | SetLess(signed: bool, rs1: Reg, rs2: Reg)
    | SetLessImm(signed: bool, rs1: Reg, imm: Imm)
    | Bitwise(bits: Logic, rs1: Reg, rs2: Reg)
    | BitwiseImm(bits: Logic, rs1: Reg, imm: Imm)
    | ShiftReg(kind: Shift, rs1: Reg, rs2: Reg)
    | ShiftImm(kind: Shift, rs1: Reg, shamt: Shamt)
    | Lb(off: Imm, rs1: Reg)
    | Lh(off: Imm, rs1: Reg)
    | Lhu(off: Imm, rs1: Reg)
    | Seqz(rs1: Reg)
    | Not(rs1: Reg)
    | Sltz(rs1: Reg)

  /** Branch and jump targets are instruction numbers; the assembler knows where each instruction is placed. */
  datatype Rv =
    | Plain(op: Base)
    | Set(rd: Reg, what: Calc)
    | Sh(rs2: Reg, off: Imm, rs1: Reg)
    | Branch(cond: Cond, rs1: Reg, rs2: Reg, target: nat)
    | Jal(rd: Reg, target: nat)
    | Jalr(rd: Reg, rs1: Reg, imm: Imm)

  predicate Control(i: Rv) {
    i.Branch? || i.Jal? || i.Jalr?
  }

  function Truth(b: bool): int {
    if b then 1 else 0
  }

  function Less(signed: bool, a: int, b: int): int {
    Truth(if signed then Signed32(a) < Signed32(b) else a < b)
  }

  function LoadByte(s: State, base: int, off: int): (b: int)
    requires WellTyped(s)
    ensures 0 <= b < 256
  {
    s.mem[Addr(base, off)]
  }

  function LoadHalf(s: State, base: int, off: int): (h: int)
    requires WellTyped(s)
    ensures 0 <= h < 0x1_0000
  {
    LoadByte(s, base, off) + 0x100 * LoadByte(s, base, off + 1)
  }

  function StoreHalf(m: seq<int>, base: int, off: int, v: int): seq<int>
    requires |m| == W
  {
    m[Addr(base, off) := v % 256][Addr(base, off + 1) := (v / 256) % 256]
  }

  function Value(c: Calc, s: State): int
    requires WellTyped(s)
  {
    match c
    case Sub(rs1, rs2) => (s.regs[rs1] - s.regs[rs2]) % W
    case SetLess(signed, rs1, rs2) => Less(signed, s.regs[rs1], s.regs[rs2])
    case SetLessImm(signed, rs1, imm) => Less(signed, s.regs[rs1], imm % W)
    case Bitwise(bits, rs1, rs2) => BitOp(bits, s.regs[rs1], s.regs[rs2])
    case BitwiseImm(bits, rs1, imm) => BitOp(bits, s.regs[rs1], imm % W)
    case ShiftReg(kind, rs1, rs2) => ShiftOp(kind, s.regs[rs1], s.regs[rs2] % 32)
    case ShiftImm(kind, rs1, shamt) => ShiftOp(kind, s.regs[rs1], shamt)
    case Lb(off, rs1) => SignExtend8(LoadByte(s, s.regs[rs1], off))
    case Lh(off, rs1) => SignExtend16(LoadHalf(s, s.regs[rs1], off))
    case Lhu(off, rs1) => LoadHalf(s, s.regs[rs1], off)
    case Seqz(rs1) => Truth(s.regs[rs1] == 0)
    case Not(rs1) => W - 1 - s.regs[rs1]
    case Sltz(rs1) => Truth(Signed32(s.regs[rs1]) < 0)
  }

  /** One instruction that does not transfer control. */
  function Exec(i: Rv, s: State): State
    requires WellTyped(s) && !Control(i)
  {
    if i.Plain? then Step(i.op, s)
    else if i.Set? then State(SetReg(s.regs, i.rd, Value(i.what, s)), s.mem)
    else State(s.regs, StoreHalf(s.mem, s.regs[i.rs1], i.off, s.regs[i.rs2]))
  }

  lemma ShiftRange(kind: Shift, v: int, j: nat)
    requires 0 <= v < W
    ensures 0 <= ShiftOp(kind, v, j) < W
  {
    if kind == SRL {
      SmallAfter(v, Pow2(j));
    }
  }

  lemma BitwiseRange(op: Logic, a: int, b: int)
    requires 0 <= a < W && 0 <= b < W
    ensures 0 <= BitOp(op, a, b) < W
  {
    hide Split, Join, BitOp;
    WordBytewise(op, a, b);
    var x, y := Split(a), Split(b);
    SplitJoin(Word(BitOp(op, x.b0, y.b0), BitOp(op, x.b1, y.b1), BitOp(op, x.b2, y.b2), BitOp(op, x.b3, y.b3)));
  }

  lemma ValueRange(c: Calc, s: State)
    requires WellTyped(s)
    ensures 0 <= Value(c, s) < W
  {
    hide ShiftOp, BitOp;
    match c {
      case Bitwise(bits, rs1, rs2) => BitwiseRange(bits, s.regs[rs1], s.regs[rs2]);
      case BitwiseImm(bits, rs1, imm) => BitwiseRange(bits, s.regs[rs1], imm % W);
      case ShiftReg(kind, rs1, rs2) => ShiftRange(kind, s.regs[rs1], s.regs[rs2] % 32);
      case ShiftImm(kind, rs1, shamt) => ShiftRange(kind, s.regs[rs1], shamt);
      case _ =>
    }
  }

  /** Registers stay words, memory stays bytes. */
  lemma ExecTyped(i: Rv, s: State)
    requires WellTyped(s) && !Control(i)
    ensures WellTyped(Exec(i, s))
  {
    hide Value, Step;
    if i.Plain? {
      StepTyped(i.op, s);
    } else if i.Set? {
      ValueRange(i.what, s);
    }
  }
}
