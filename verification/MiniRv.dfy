/** The macros of inst-replace.h: every other RV32I instruction as a sequence of base instructions. */
module MiniRv {
  import opened Machine
  import opened Scratch

  /** Where the tables live. rom holds the bytes of all read-only tables; check is the writable compare array. */
  datatype Layout = Layout(rom: map<int, int>, same: int, zero8: int, slt1: int, sltu1: int, or1: int, lut: int,
                           check: int)
  {
    // inst-replace.h:73-78
    function And8(): int { lut }
    function Or8(): int { lut + 256 * 256 }
    function Xor8(): int { lut + 2 * 256 * 256 }
    function Sll8(): int { lut + 3 * 256 * 256 }
    function Srl8(): int { Sll8() + 32 * 256 * 4 }
    function Sra8(): int { Srl8() + 32 * 256 * 4 }
  }

  // ---------------------------------------------------------------- building blocks

  /** inst-replace.h:117-120 */
  function GetByte(rd: Reg, rs1: Reg, k: ByteNo): seq<Base> {
    [SwSlot(rs1, VAR_C), LbuSlot(rd, VAR_C, k)]
  }

  /** The .rept of inst-replace.h:549-551. */
  function Doubles(rd: Reg, n: nat): seq<Base> {
    if n == 0 then [] else [Machine.Add(rd, rd, rd)] + Doubles(rd, n - 1)
  }

  /** inst-replace.h:597-601 */
  function ShCode(rs: Reg, off: Imm, base: Reg): seq<Base>
    requires off < 2047
  {
    [Sb(rs, off, base)] + (GetByte(TP, rs, 1) + [Sb(TP, off + 1, base)])
  }

  /** inst-replace.h:526-552 */
  function SlliCode(rd: Reg, rs1: Reg, imm: nat): seq<Base>
    requires imm < 32
    decreases imm
  {
    if imm == 0 then (if rd != rs1 then [Addi(rd, rs1, 0)] else [])
    else if imm >= 24 then
      [SwSlot(ZERO, VAR_A), SbSlot(rs1, VAR_A, 3), LwSlot(rd, VAR_A)] + SlliCode(rd, rd, imm - 24)
    else if imm >= 16 then
      [SwSlot(ZERO, VAR_A)] + (ShCode(rs1, -4 * VAR_A + 2, SP) + ([LwSlot(rd, VAR_A)] + SlliCode(rd, rd, imm - 16)))
    else [Machine.Add(rd, rs1, rs1)] + Doubles(rd, imm - 1)
  }

  /** inst-replace.h:122-126 */
  function Msb(rd: Reg, rs1: Reg): seq<Base> {
    GetByte(rd, rs1, 3) + (SlliCode(rd, rd, 1) + GetByte(rd, rd, 1))
  }

  /** One of the four groups of inst-replace.h:634-652. */
  function NotByte(k: ByteNo): seq<Base> {
    [LbuSlot(GP, VAR_C, k), Machine.Add(GP, GP, TP), Lbu(GP, 0, GP), SbSlot(GP, VAR_D, k)]
  }

  /** inst-replace.h:629-657 */
  function NotCode(L: Layout, rd: Reg, rs1: Reg): seq<Base> {
    [SwSlot(GP, 3), SwSlot(rs1, VAR_C)]
    + (La(TP, L.Xor8() + 0xff00)
       + (NotByte(3) + (NotByte(2) + (NotByte(1) + (NotByte(0) + [LwSlot(GP, 3), LwSlot(rd, VAR_D)])))))
  }

  /** inst-replace.h:110-115 */
  function SubCode(L: Layout, rd: Reg, rs1: Reg, rs2: Reg): seq<Base> {
    NotCode(L, TP, rs2) + [Machine.Add(rd, rs1, TP), Addi(rd, rd, 1)]
  }

  /** inst-replace.h:128-153, the part that leaves sign(A), sign(B), sign(A - B) as an index in gp. */
  function SltIndex(L: Layout): seq<Base> {
    Msb(GP, S0) + (SlliCode(GP, GP, 1)
    + (Msb(TP, S1) + ([Machine.Add(GP, GP, TP)] + (SlliCode(GP, GP, 1)
    + (SubCode(L, TP, S0, S1) + (Msb(TP, TP) + [Machine.Add(GP, GP, TP)]))))))
  }

  function SltCode(L: Layout, table: int, rd: Reg, rs1: Reg, rs2: Reg): seq<Base> {
    [SwSlot(S0, 1), SwSlot(S1, 2), SwSlot(rs2, VAR_A), Addi(S0, rs1, 0), LwSlot(S1, VAR_A)]
    + (SltIndex(L) + (La(TP, table) + [Machine.Add(TP, TP, GP), LwSlot(S1, 2), LwSlot(S0, 1), Lbu(rd, 0, TP)]))
  }

  /** inst-replace.h:165-174 */
  function LogicByte(lutReg: Reg, k: ByteNo): seq<Base> {
    [LbuSlot(TP, VAR_A, k), SbSlot(TP, VAR_D, 1), LbuSlot(TP, VAR_B, k), SbSlot(TP, VAR_D, 0)]
    + [LwSlot(TP, VAR_D), Machine.Add(TP, lutReg, TP), Lbu(TP, 0, TP), SbSlot(TP, VAR_C, k)]
  }

  /** inst-replace.h:176-200 */
  function LogicCode(table: int, rd: Reg, rs1: Reg, rs2: Reg): seq<Base> {
    if rd == ZERO then []
    else
      [SwSlot(rs1, VAR_A), SwSlot(rs2, VAR_B)]
      + (La(rd, table) + ([SwSlot(ZERO, VAR_D)]
      + (LogicByte(rd, 3) + (LogicByte(rd, 2) + (LogicByte(rd, 1) + (LogicByte(rd, 0) + [LwSlot(rd, VAR_C)]))))))
  }

  /** inst-replace.h:213-224 */
  function CheckSame(table: Reg, rd: Reg, k: ByteNo): seq<Base> {
    [LbuSlot(rd, VAR_A, k), Machine.Add(TP, table, rd), Addi(rd, ZERO, 1), Sb(rd, 0, TP)]
    + [LbuSlot(rd, VAR_B, k), Machine.Add(rd, table, rd), Sb(ZERO, 0, rd), Lbu(rd, 0, TP)]
  }

  /** inst-replace.h:226-247 */
  function SeqCode(L: Layout, rd: Reg, rs1: Reg, rs2: Reg): seq<Base> {
    [SwSlot(rs1, VAR_A), SwSlot(rs2, VAR_B), SwSlot(S0, 1), SwSlot(S1, 2)]
    + (La(S0, L.check) + (CheckSame(S0, GP, 0)
    + (CheckSame(S0, S1, 1) + ([Machine.Add(GP, GP, S1)]
    + (CheckSame(S0, S1, 2) + ([Machine.Add(GP, GP, S1)]
    + (CheckSame(S0, S1, 3) + ([Machine.Add(GP, GP, S1)]
    + (La(TP, L.same) + [Machine.Add(TP, TP, GP), Lbu(rd, 0, TP), LwSlot(S1, 2), LwSlot(S0, 1)])))))))))
  }

  /** inst-replace.h:249-253 */
  function CheckZero(table: Reg, rd: Reg, k: ByteNo): seq<Base> {
    [LbuSlot(rd, VAR_A, k), Machine.Add(rd, table, rd), Lbu(rd, 0, rd)]
  }

  /** inst-replace.h:255-273 */
  function SeqzCode(L: Layout, rd: Reg, rs1: Reg): seq<Base> {
    [SwSlot(rs1, VAR_A), SwSlot(S0, 1)]
    + (La(S0, L.zero8) + (CheckZero(S0, GP, 0)
    + (CheckZero(S0, TP, 1) + ([Machine.Add(GP, GP, TP)]
    + (CheckZero(S0, TP, 2) + ([Machine.Add(GP, GP, TP)]
    + (CheckZero(S0, TP, 3) + ([Machine.Add(GP, GP, TP)]
    + (La(TP, L.same) + [Machine.Add(TP, TP, GP), Lbu(rd, 0, TP), LwSlot(S0, 1)])))))))))
  }

  // ---------------------------------------------------------------- shifts

  /** inst-replace.h:384-390 */
  function GetShamt(L: Layout, rd: Reg, rs1: Reg): seq<Base> {
    [SbSlot(rs1, VAR_B, 0), LbuSlot(rd, VAR_B, 0)]
        + (La(TP, L.And8() + 0x1f00) + [Machine.Add(rd, rd, TP), Lbu(rd, 0, rd)])
  }

  /** inst-replace.h:392-397 */
  function ShiftByte(base: Reg, k: ByteNo): seq<Base> {
    [LbuSlot(TP, VAR_A, k)] + (SlliCode(TP, TP, 2) + [Machine.Add(TP, base, TP), Lw(TP, 0, TP)])
  }

  /** s0 becomes the address of the shift amount's table row, inst-replace.h:404-410 and 452-458. */
  function ShiftRow(L: Layout, rs2: Reg, table: int): seq<Base> {
    GetShamt(L, S0, rs2)
    + ([SwSlot(ZERO, VAR_B), SbSlot(S0, VAR_B, 1), LwSlot(S0, VAR_B)]
    + (SlliCode(S0, S0, 2) + (La(TP, table) + [Machine.Add(S0, S0, TP)])))
  }

  /** inst-replace.h:399-430 */
  function SllCode(L: Layout, rd: Reg, rs1: Reg, rs2: Reg): seq<Base> {
    [SwSlot(S0, 1), SwSlot(rs1, VAR_A)]
    + (ShiftRow(L, rs2, L.Sll8()) + SllSum(rd))
  }

  /** inst-replace.h:412-429 */
  function SllSum(rd: Reg): seq<Base> {
    [SwSlot(ZERO, VAR_B)]
    + (ShiftByte(S0, 3) + ([SbSlot(TP, VAR_B, 3), LwSlot(GP, VAR_B)]
    + (ShiftByte(S0, 2) + (ShCode(TP, -4 * VAR_B + 2, SP) + ([LwSlot(TP, VAR_B), Machine.Add(GP, GP, TP)]
    + (ShiftByte(S0, 1) + (SlliCode(TP, TP, 8) + ([Machine.Add(GP, GP, TP)]
    + (ShiftByte(S0, 0) + [LwSlot(S0, 1), Machine.Add(rd, GP, TP)])))))))))
  }

  /** inst-replace.h:475-502: the three lower table words, combined byte by byte in gp. */
  function LowBytes(): seq<Base> {
    ShiftByte(S0, 2) + ([SwSlot(TP, VAR_B)]
    + (ShiftByte(S0, 1) + ([SwSlot(TP, VAR_C)]
    + (ShiftByte(S0, 0) + ([SwSlot(TP, VAR_D)]
    + ([LbuSlot(GP, VAR_B, 1), LbuSlot(TP, VAR_C, 2), Machine.Add(GP, GP, TP), LbuSlot(TP, VAR_D, 3),
        Machine.Add(GP, GP, TP), SwSlot(GP, VAR_D)]
    + ([LbuSlot(GP, VAR_B, 2), LbuSlot(TP, VAR_C, 3), Machine.Add(GP, GP, TP), SbSlot(GP, VAR_D, 1)]
    + [LbuSlot(GP, VAR_B, 3), SbSlot(GP, VAR_D, 2), LwSlot(GP, VAR_D)])))))))
  }

  /** inst-replace.h:504-512 */
  function RightTail(L: Layout, rd: Reg, arith: bool): seq<Base> {
    (if arith then La(TP, L.Sra8() - L.Srl8()) + [Machine.Add(S0, S0, TP)] else [])
    + (ShiftByte(S0, 3) + [LwSlot(S0, 1), Machine.Add(rd, GP, TP)])
  }

  /** inst-replace.h:432-513 for a register amount. */
  function RightCode(L: Layout, rd: Reg, rs1: Reg, rs2: Reg, arith: bool): seq<Base> {
    [SwSlot(S0, 1), SwSlot(rs1, VAR_A)] + (ShiftRow(L, rs2, L.Srl8()) + (LowBytes() + RightTail(L, rd, arith)))
  }

  /** inst-replace.h:432-513 for a constant amount; 24 has a path of its own. */
  function RightImmCode(L: Layout, rd: Reg, rs1: Reg, imm: nat, arith: bool): seq<Base>
    requires imm < 32
  {
    if imm == 24 then
      if arith then
        [SwSlot(rs1, VAR_A)] + (La(TP, L.Sra8() + imm * 1024)
        + ([LbuSlot(rd, VAR_A, 3)] + (SlliCode(rd, rd, 2) + [Machine.Add(TP, TP, rd), Lw(rd, 0, TP)])))
      else GetByte(rd, rs1, 3)
    else
      [SwSlot(S0, 1), SwSlot(rs1, VAR_A)] + (La(S0, L.Srl8() + imm * 1024) + (LowBytes() + RightTail(L, rd, arith)))
  }

  // ---------------------------------------------------------------- sub-word loads

  /** inst-replace.h:570-576 */
  function LbCode(L: Layout, rd: Reg, off: Imm, rs1: Reg): seq<Base> {
    [SwSlot(ZERO, VAR_A), Lbu(rd, off, rs1), SbSlot(rd, VAR_A, 3), LwSlot(rd, VAR_A)]
        + RightImmCode(L, rd, rd, 24, true)
  }

  /** inst-replace.h:578-585 */
  function LhuCode(rd: Reg, off: Imm, rs1: Reg): seq<Base>
    requires off < 2047
  {
    [SwSlot(ZERO, VAR_A), Lbu(TP, off + 1, rs1), SbSlot(TP, VAR_A, 1), LwSlot(TP, VAR_A)]
    + [Lbu(rd, off, rs1), Machine.Add(rd, rd, TP)]
  }

  /** inst-replace.h:587-595 */
  function LhCode(L: Layout, rd: Reg, off: Imm, rs1: Reg): seq<Base>
    requires off < 2047
  {
    [SwSlot(ZERO, VAR_A), Lbu(GP, off + 1, rs1), SbSlot(GP, VAR_A, 3), LwSlot(GP, VAR_A)]
    + (RightImmCode(L, GP, GP, 16, true) + [Lbu(rd, off, rs1), Machine.Add(rd, rd, GP)])
  }

  // ---------------------------------------------------------------- branches

  datatype Cond = EQ | NE | LT | GE | LTU | GEU

  /** The condition computed into tp, and whether tp == 1 means taken. */
  datatype Test = Test(code: seq<Base>, oneIsTaken: bool)

  /** inst-replace.h:338-344 and 363-370: tp = (r <= 0) ? 1 : 0. */
  function NotPositive(L: Layout, r: Reg): seq<Base> {
    Msb(GP, r) + ([Addi(TP, r, -1)] + (Msb(TP, TP) + ([Machine.Add(GP, GP, TP)]
    + (La(TP, L.or1) + [Machine.Add(TP, GP, TP), Lbu(TP, 0, TP)]))))
  }

  /** inst-replace.h:299-382 */
  function BranchTest(L: Layout, c: Cond, rs1: Reg, rs2: Reg): Test {
    match c
    case EQ => Test(EqualCode(L, rs1, rs2), true)
    case NE => Test(EqualCode(L, rs1, rs2), false)
    case LT =>
      if rs2 == ZERO then Test(Msb(TP, rs1), true)
      else if rs1 == ZERO then Test(NotPositive(L, rs2), false)
      else Test(SltCode(L, L.slt1, TP, rs1, rs2), true)
    case GE =>
      if rs1 == ZERO then Test(NotPositive(L, rs2), true)
      else Test(SltCode(L, L.slt1, TP, rs1, rs2), false)
    case LTU => Test(SltCode(L, L.sltu1, TP, rs1, rs2), true)
    case GEU => Test(SltCode(L, L.sltu1, TP, rs1, rs2), false)
  }

  /** inst-replace.h:301-310: a zero operand is handled by seqz. */
  function EqualCode(L: Layout, rs1: Reg, rs2: Reg): seq<Base> {
    if rs2 == ZERO then SeqzCode(L, TP, rs1)
    else if rs1 == ZERO then SeqzCode(L, TP, rs2)
    else SeqCode(L, TP, rs1, rs2)
  }

  /** inst-replace.h:277-292, up to the load of the chosen address into tp. */
  function Resolve(oneIsTaken: bool, target: int, next: int): seq<Base> {
    SlliCode(TP, TP, 2) + ([Machine.Add(TP, SP, TP)]
    + (La(GP, if oneIsTaken then target else next) + ([SwSlot(GP, VAR_A)]
    + (La(GP, if oneIsTaken then next else target) + [SwSlot(GP, VAR_B), Lw(TP, -VAR_B * 4, TP)]))))
  }
}
