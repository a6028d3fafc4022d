/** The read-only tables: what gen-lut.c writes and inst-replace.h:41-71 lists, and reading them. */
module Tables {
  import opened Bits
  import opened Machine
  import opened Scratch
  import opened MiniRv

  function Signed32(x: int): int {
    if x < W / 2 then x else x - W
  }

  /** Arithmetic right shift of a 32-bit word. */
  function Sar32(x: int, k: nat): int {
    (Signed32(x) / Pow2(k)) % W
  }

  /** The n-th byte of a little-endian word sequence, or of a byte table. */
  ghost predicate BytesAt(rom: map<int, int>, base: int, t: seq<int>) {
    forall i | 0 <= i < |t| :: ByteAt(rom, base + i, t[i])
  }

  ghost predicate ByteAt(rom: map<int, int>, a: int, v: int) {
    a in rom && rom[a] == v
  }

  ghost predicate WordAt(rom: map<int, int>, a: int, v: int) {
    var w := Split(v);
    ByteAt(rom, a, w.b0) && ByteAt(rom, a + 1, w.b1) && ByteAt(rom, a + 2, w.b2) && ByteAt(rom, a + 3, w.b3)
  }

  /** gen-lut.c:19-21: row j, column i of the three byte tables. */
  ghost predicate LogicEntry(L: Layout, j: nat, i: nat) {
    && ByteAt(L.rom, L.And8() + 256 * j + i, And(j, i))
    && ByteAt(L.rom, L.Or8() + 256 * j + i, Or(j, i))
    && ByteAt(L.rom, L.Xor8() + 256 * j + i, Xor(j, i))
  }

  /** gen-lut.c:22-24: row j, column i of the three word tables. */
  ghost predicate ShiftEntry(L: Layout, j: nat, i: nat) {
    && WordAt(L.rom, L.Sll8() + 4 * (256 * j + i), Shl32(i, j))
    && WordAt(L.rom, L.Srl8() + 4 * (256 * j + i), Shr(i * 0x100_0000, j))
    && WordAt(L.rom, L.Sra8() + 4 * (256 * j + i), Sar32(i * 0x100_0000, j))
  }

  /** All tables are in the ROM, and the ROM and the compare array are inside memory and apart. */
  ghost predicate LayoutOK(L: Layout) {
    && BytesAt(L.rom, L.same, [1, 0, 0, 0, 0, 0, 0, 0])
    && BytesAt(L.rom, L.slt1, [0, 1, 0, 0, 1, 1, 0, 1])
    && BytesAt(L.rom, L.sltu1, [0, 1, 1, 1, 0, 0, 0, 1])
    && BytesAt(L.rom, L.or1, [0, 1, 1, 1])
    && (forall i | 0 <= i < 256 :: ZeroEntry(L, i))
    && (forall j, i | 0 <= j < 256 && 0 <= i < 256 :: LogicEntry(L, j, i))
    && (forall j, i | 0 <= j < 32 && 0 <= i < 256 :: ShiftEntry(L, j, i))
    && 0 <= L.check && L.check + 256 <= W
    && forall a | a in L.rom :: RomAddress(L, a)
  }

  /** inst-replace.h:44-47 */
  ghost predicate ZeroEntry(L: Layout, i: nat) {
    ByteAt(L.rom, L.zero8 + i, if i == 0 then 0 else 1)
  }

  ghost predicate RomAddress(L: Layout, a: int) {
    0 <= a < W && !(L.check <= a < L.check + 256)
  }

  /** Memory holds the ROM, none of it in the scratch bytes below sp. */
  ghost predicate RomOK(L: Layout, s: State) {
    && Room(s)
    && forall a | a in L.rom :: Holds(L, s, a)
  }

  ghost predicate Holds(L: Layout, s: State, a: int)
    requires Room(s) && a in L.rom
  {
    0 <= a < W && !(s.regs[SP] - 28 <= a < s.regs[SP]) && s.mem[a] == L.rom[a]
  }

  lemma RomKept(L: Layout, s: State, s': State)
    requires RomOK(L, s) && Room(s') && s'.regs[SP] == s.regs[SP] && Rest(s') == Rest(s)
    ensures RomOK(L, s')
  {
    forall a | a in L.rom
      ensures Holds(L, s', a)
    {
      assert Holds(L, s, a);
      RestDecides(s, s', a);
    }
  }

  /** lbu from a ROM address. */
  lemma DoRomByte(L: Layout, rd: Reg, rs: Reg, v: int, s: State) returns (t: State)
    requires RomOK(L, s) && ByteAt(L.rom, s.regs[rs], v)
    ensures t == Step(Lbu(rd, 0, rs), s) && WellTyped(t)
    ensures t == State(SetReg(s.regs, rd, v), s.mem)
  {
    t := Step(Lbu(rd, 0, rs), s);
    StepTyped(Lbu(rd, 0, rs), s);
    assert Holds(L, s, s.regs[rs]);
  }

  /** lw from a ROM address. */
  lemma DoRomWord(L: Layout, rd: Reg, rs: Reg, v: int, s: State) returns (t: State)
    requires RomOK(L, s) && WordAt(L.rom, s.regs[rs], v) && 0 <= v < W
    ensures t == Step(Lw(rd, 0, rs), s) && WellTyped(t)
    ensures t == State(SetReg(s.regs, rd, v), s.mem)
  {
    t := Step(Lw(rd, 0, rs), s);
    StepTyped(Lw(rd, 0, rs), s);
    var a := s.regs[rs];
    assert Holds(L, s, a) && Holds(L, s, a + 1) && Holds(L, s, a + 2) && Holds(L, s, a + 3);
    RomLoad(s.mem, a, Split(v));
    JoinSplit(v);
  }

  /** A word of the ROM, whatever the registers. */
  lemma RomWord(L: Layout, a: int, v: int, s: State)
    requires RomOK(L, s) && WordAt(L.rom, a, v) && 0 <= v < W
    ensures 0 <= a < W && |s.mem| == W && Join(LoadWord(s.mem, Addr(a, 0))) == v
  {
    assert Holds(L, s, a) && Holds(L, s, a + 1) && Holds(L, s, a + 2) && Holds(L, s, a + 3);
    RomLoad(s.mem, a, Split(v));
    JoinSplit(v);
  }

  lemma RomLoad(m: seq<int>, a: int, w: Word)
    requires |m| == W && 0 <= a && a + 3 < W
    requires m[a] == w.b0 && m[a + 1] == w.b1 && m[a + 2] == w.b2 && m[a + 3] == w.b3
    ensures LoadWord(m, Addr(a, 0)) == w
  {
  }

  /** add and addi into a register other than sp. */
  lemma DoAdd(rd: Reg, rs1: Reg, rs2: Reg, s: State) returns (t: State)
    requires Room(s) && rd != SP
    ensures t == Step(Machine.Add(rd, rs1, rs2), s) && Room(t)
    ensures Apart(t) == Apart(s).(regs := SetReg(s.regs, rd, (s.regs[rs1] + s.regs[rs2]) % W))
  {
    t := Step(Machine.Add(rd, rs1, rs2), s);
    StepTyped(Machine.Add(rd, rs1, rs2), s);
    RegOnly(s, t, rd, (s.regs[rs1] + s.regs[rs2]) % W);
  }

  lemma DoAddi(rd: Reg, rs1: Reg, imm: Imm, s: State) returns (t: State)
    requires Room(s) && rd != SP
    ensures t == Step(Addi(rd, rs1, imm), s) && Room(t)
    ensures Apart(t) == Apart(s).(regs := SetReg(s.regs, rd, (s.regs[rs1] + imm) % W))
  {
    t := Step(Addi(rd, rs1, imm), s);
    StepTyped(Addi(rd, rs1, imm), s);
    RegOnly(s, t, rd, (s.regs[rs1] + imm) % W);
  }

  lemma DoLa(r: Reg, addr: int, s: State) returns (t: State)
    requires Room(s) && r != SP && 0 <= addr < W
    ensures t == Run(La(r, addr), s) && Room(t)
    ensures Apart(t) == Apart(s).(regs := SetReg(s.regs, r, addr))
  {
    t := Run(La(r, addr), s);
    RunLa(r, addr, s);
    RegOnly(s, t, r, addr);
  }

  lemma GetLw(r: Reg, n: Slot, s: State) returns (t: State)
    requires Room(s) && r != SP
    ensures t == Step(LwSlot(r, n), s) && Room(t) && IsWord(Slots(s)[n])
    ensures Apart(t) == Apart(s).(regs := SetReg(s.regs, r, Join(Slots(s)[n])))
  {
    t := DoLw(r, n, s);
    RegOnly(s, t, r, Join(Slots(s)[n]));
  }

  lemma GetLbu(r: Reg, n: Slot, k: ByteNo, s: State) returns (t: State)
    requires Room(s) && r != SP
    ensures t == Step(LbuSlot(r, n, k), s) && Room(t) && IsWord(Slots(s)[n])
    ensures Apart(t) == Apart(s).(regs := SetReg(s.regs, r, Byte(Slots(s)[n], k)))
  {
    t := DoLbu(r, n, k, s);
    RegOnly(s, t, r, Byte(Slots(s)[n], k));
  }

  lemma GetRomByte(L: Layout, rd: Reg, rs: Reg, v: int, s: State) returns (t: State)
    requires RomOK(L, s) && ByteAt(L.rom, s.regs[rs], v) && rd != SP
    ensures t == Step(Lbu(rd, 0, rs), s) && Room(t)
    ensures Apart(t) == Apart(s).(regs := SetReg(s.regs, rd, v))
  {
    t := DoRomByte(L, rd, rs, v, s);
    RegOnly(s, t, rd, v);
  }

  lemma GetRomWord(L: Layout, rd: Reg, rs: Reg, v: int, s: State) returns (t: State)
    requires RomOK(L, s) && WordAt(L.rom, s.regs[rs], v) && 0 <= v < W && rd != SP
    ensures t == Step(Lw(rd, 0, rs), s) && Room(t)
    ensures Apart(t) == Apart(s).(regs := SetReg(s.regs, rd, v))
  {
    t := DoRomWord(L, rd, rs, v, s);
    RegOnly(s, t, rd, v);
  }

  lemma RoomOf(L: Layout, s: State)
    requires RomOK(L, s)
    ensures Room(s) && |s.regs| == 32 && s.regs[0] == 0 && forall r | 0 <= r < 32 :: 0 <= s.regs[r] < W
  {
  }

  lemma Run2(a: Base, b: Base, s: State)
    requires WellTyped(s)
    ensures WellTyped(Step(a, s)) && Run([a, b], s) == Step(b, Step(a, s))
  {
    Run1(a, s);
    Run1(b, Step(a, s));
    RunAppend([a], [b], s);
    assert [a, b] == [a] + [b];
  }

  lemma Run3(a: Base, b: Base, c: Base, s: State)
    requires WellTyped(s)
    ensures WellTyped(Step(a, s)) && WellTyped(Step(b, Step(a, s)))
    ensures Run([a, b, c], s) == Step(c, Step(b, Step(a, s)))
  {
    Run1(a, s);
    Run2(b, c, Step(a, s));
    RunAppend([a], [b, c], s);
    assert [a, b, c] == [a] + [b, c];
  }

  lemma Run4(a: Base, b: Base, c: Base, d: Base, s: State)
    requires WellTyped(s)
    ensures WellTyped(Step(a, s)) && WellTyped(Step(b, Step(a, s))) && WellTyped(Step(c, Step(b, Step(a, s))))
    ensures Run([a, b, c, d], s) == Step(d, Step(c, Step(b, Step(a, s))))
  {
    Run1(a, s);
    Run3(b, c, d, Step(a, s));
    RunAppend([a], [b, c, d], s);
    assert [a, b, c, d] == [a] + [b, c, d];
  }

  lemma Run5(a: Base, b: Base, c: Base, d: Base, e: Base, s: State)
    requires WellTyped(s)
    ensures WellTyped(Step(a, s)) && WellTyped(Step(b, Step(a, s))) && WellTyped(Step(c, Step(b, Step(a, s))))
    ensures WellTyped(Step(d, Step(c, Step(b, Step(a, s)))))
    ensures Run([a, b, c, d, e], s) == Step(e, Step(d, Step(c, Step(b, Step(a, s)))))
  {
    Run1(a, s);
    Run4(b, c, d, e, Step(a, s));
    RunAppend([a], [b, c, d, e], s);
    assert [a, b, c, d, e] == [a] + [b, c, d, e];
  }
}
