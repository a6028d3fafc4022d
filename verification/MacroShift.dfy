/** sll, srl and sra by byte tables (inst-replace.h:384-513, 526-562). */
module MacroShift {
  import opened Bits
  import opened Machine
  import opened Scratch
  import opened MiniRv
  import opened Tables
  import opened MacroBasics
  import opened ShiftArith
  import opened Effects
  import MacroCompare

  datatype Shift = SLL | SRL | SRA

  /** RISC-V Unprivileged ISA, section 2.4: shifts by 0 to 31. */
  function ShiftOp(kind: Shift, x: nat, j: nat): int {
    match kind
    case SLL => Shl32(x, j)
    case SRL => Shr(x, j)
    case SRA => Sar32(x, j)
  }

  function ShiftTable(L: Layout, kind: Shift): int {
    match kind
    case SLL => L.Sll8()
    case SRL => L.Srl8()
    case SRA => L.Sra8()
  }

  /** Left shifts start from the low end of the word, right shifts from the high end. */
  function Entry(kind: Shift, x: nat, j: nat): int {
    ShiftOp(kind, if kind == SLL then x else x * 0x100_0000, j)
  }

  lemma EntryRange(kind: Shift, x: nat, j: nat)
    requires x < 256
    ensures 0 <= Entry(kind, x, j) < W
  {
    hide Pow2;
    if kind == SRL {
      SmallAfter(x * 0x100_0000, Pow2(j));
    }
  }

  lemma ShiftLookup(L: Layout, kind: Shift, x: int, j: nat)
    requires LayoutOK(L) && 0 <= x < 256 && j < 32
    ensures WordAt(L.rom, ShiftTable(L, kind) + 1024 * j + 4 * x, Entry(kind, x, j))
    ensures 0 <= ShiftTable(L, kind) + 1024 * j && ShiftTable(L, kind) + 1024 * j + 4 * x < W
    ensures 0 <= Entry(kind, x, j) < W && 0 <= ShiftTable(L, kind) < W
  {
    hide Shl32, Shr, Sar32, Split;
    EntryRange(kind, x, j);
    EntryAddress(L, kind, x, j);
    EntryAddress(L, kind, 0, j);
    EntryAddress(L, kind, 0, 0);
  }

  lemma EntryAddress(L: Layout, kind: Shift, x: nat, j: nat)
    requires LayoutOK(L) && x < 256 && j < 32
    ensures WordAt(L.rom, ShiftTable(L, kind) + 1024 * j + 4 * x, Entry(kind, x, j))
    ensures 0 <= ShiftTable(L, kind) + 1024 * j + 4 * x < W
  {
    hide Shl32, Shr, Sar32, Split;
    assert ShiftEntry(L, j, x);
    assert ShiftTable(L, kind) + 4 * (256 * j + x) == ShiftTable(L, kind) + 1024 * j + 4 * x;
    assert RomAddress(L, ShiftTable(L, kind) + 1024 * j + 4 * x);
  }

  // ---------------------------------------------------------------- the row of the amount

  lemma ShamtMask(b: nat)
    ensures And(31, b) == b % 32
  {
    assert Pow2(5) == 32;
    AndCommutes(31, b);
    AndLowMask(b, 5, 32);
  }

  lemma ShamtLookup(L: Layout, b: int)
    requires LayoutOK(L) && 0 <= b < 256
    ensures ByteAt(L.rom, L.And8() + 0x1f00 + b, b % 32)
    ensures 0 <= L.And8() + 0x1f00 + b < W && 0 <= L.And8() + 0x1f00 < W
  {
    ShamtMask(b);
    assert LogicEntry(L, 31, b) && LogicEntry(L, 31, 0);
    assert RomAddress(L, L.And8() + 0x1f00 + b) && RomAddress(L, L.And8() + 0x1f00 + 0);
  }

  lemma LowFive(v: int)
    requires 0 <= v
    ensures (v % 256) % 32 == v % 32
  {
  }

  /** The amount, masked to five bits, into s0. */
  lemma GetShamtRuns(L: Layout, rs: Reg, s: State) returns (t: State, x: int)
    requires LayoutOK(L) && RomOK(L, s)
    ensures t == Run(GetShamt(L, S0, rs), s) && RomOK(L, t) && Rest(t) == Rest(s)
    ensures forall n | 1 <= n <= 7 && n != VAR_B :: Slots(t)[n] == Slots(s)[n]
    ensures t.regs == s.regs[TP := x][S0 := s.regs[rs] % 32]
  {
    hide LayoutOK, RomOK, Slots, Rest, Run, Step, LoadWord, WellTyped, ByteAt, La;
    RoomOf(L, s);
    var b := s.regs[rs] % 256;
    ShamtLookup(L, b);
    LowFive(s.regs[rs]);
    x := L.And8() + 0x1f00;
    var s1 := DoSb(rs, VAR_B, 0, s);
    var s2 := GetLbu(S0, VAR_B, 0, s1);
    Run2(SbSlot(rs, VAR_B, 0), LbuSlot(S0, VAR_B, 0), s);
    var s3 := DoLa(TP, x, s2);
    var s4 := DoAdd(S0, S0, TP, s3);
    RomKept(L, s, s4);
    t := GetRomByte(L, S0, S0, b % 32, s4);
    RomKept(L, s, t);
    Run2(Machine.Add(S0, S0, TP), Lbu(S0, 0, S0), s3);
    RunAppend(La(TP, x), [Machine.Add(S0, S0, TP), Lbu(S0, 0, S0)], s2);
    RunAppend([SbSlot(rs, VAR_B, 0), LbuSlot(S0, VAR_B, 0)], La(TP, x) + [Machine.Add(S0, S0, TP), Lbu(S0, 0, S0)], s);
    SettleShamt(s.regs, s2.regs[S0], x, s4.regs[S0], b % 32);
  }

  lemma SettleShamt(regs: seq<int>, a: int, b: int, c: int, d: int)
    requires |regs| == 32
    ensures SetReg(SetReg(SetReg(SetReg(regs, S0, a), TP, b), S0, c), S0, d) == regs[TP := b][S0 := d]
  {
  }

  lemma SlliTwo(rd: Reg, s: State, x: int) returns (t: State)
    requires Room(s) && rd != SP && s.regs[rd] == x && 0 <= 4 * x < W
    ensures t == Run(SlliCode(rd, rd, 2), s) && Room(t)
    ensures Apart(t) == Apart(s).(regs := SetReg(s.regs, rd, 4 * x))
  {
    assert Pow2(2) == 4;
    t := SlliRuns(rd, rd, 2, s);
    RegOnly(s, t, rd, 4 * x);
  }

  /** The amount becomes a row offset: 256 entries of four bytes to a row. */
  function RowCode(L: Layout, table: int): seq<Base> {
    [SwSlot(ZERO, VAR_B), SbSlot(S0, VAR_B, 1), LwSlot(S0, VAR_B)]
    + (SlliCode(S0, S0, 2) + (La(TP, table) + [Machine.Add(S0, S0, TP)]))
  }

  lemma RowRuns(L: Layout, table: int, j: int, s: State) returns (t: State)
    requires RomOK(L, s) && s.regs[S0] == j && 0 <= j < 32 && 0 <= table && table + 1024 * j < W
    ensures t == Run(RowCode(L, table), s) && RomOK(L, t) && Rest(t) == Rest(s)
    ensures forall n | 1 <= n <= 7 && n != VAR_B :: Slots(t)[n] == Slots(s)[n]
    ensures t.regs == s.regs[S0 := table + 1024 * j][TP := table]
  {
    hide RomOK, Slots, Rest, Run, Step, LoadWord, WellTyped, La, SlliCode, Split, Join, WithByte;
    RoomOf(L, s);
    RowWord(j);
    var s1 := DoSw(ZERO, VAR_B, s);
    var s2 := DoSb(S0, VAR_B, 1, s1);
    var s3 := GetLw(S0, VAR_B, s2);
    Run3(SwSlot(ZERO, VAR_B), SbSlot(S0, VAR_B, 1), LwSlot(S0, VAR_B), s);
    var s4 := SlliTwo(S0, s3, 256 * j);
    var s5 := DoLa(TP, table, s4);
    t := DoAdd(S0, S0, TP, s5);
    RomKept(L, s, t);
    var i := Machine.Add(S0, S0, TP);
    Run1(i, s5);
    RunAppend(La(TP, table), [i], s4);
    RunAppend(SlliCode(S0, S0, 2), La(TP, table) + [i], s3);
    RunAppend([SwSlot(ZERO, VAR_B), SbSlot(S0, VAR_B, 1), LwSlot(S0, VAR_B)],
              SlliCode(S0, S0, 2) + (La(TP, table) + [i]), s);
    SettleRow(s.regs, 256 * j, 1024 * j, table, table + 1024 * j);
  }

  lemma RowWord(j: int)
    requires 0 <= j < 32
    ensures Join(WithByte(Split(0), 1, j % 256)) == 256 * j
  {
    hide Split;
    ZeroSplit();
    MulDivMod(j, 256, 0, j);
  }

  lemma SettleRow(regs: seq<int>, a: int, b: int, c: int, d: int)
    requires |regs| == 32
    ensures SetReg(SetReg(SetReg(SetReg(regs, S0, a), S0, b), TP, c), S0, d) == regs[S0 := d][TP := c]
  {
  }

  /** s0 holds row j of a shift table, slot A the operand. */
  ghost predicate AtRow(L: Layout, kind: Shift, j: nat, w: Word, s: State) {
    && RomOK(L, s) && j < 32 && IsWord(w)
    && s.regs[S0] == ShiftTable(L, kind) + 1024 * j && Slots(s)[VAR_A] == w
  }

  lemma ShiftRowRuns(L: Layout, kind: Shift, rs: Reg, s: State) returns (t: State)
    requires LayoutOK(L) && RomOK(L, s) && IsWord(Slots(s)[VAR_A])
    ensures t == Run(ShiftRow(L, rs, ShiftTable(L, kind)), s)
    ensures AtRow(L, kind, s.regs[rs] % 32, Slots(s)[VAR_A], t) && Slots(t)[1] == Slots(s)[1] && Rest(t) == Rest(s)
    ensures forall r | 0 <= r < 32 && r != S0 && r != TP :: t.regs[r] == s.regs[r]
  {
    hide LayoutOK, RomOK, Slots, Rest, Run, Step, LoadWord, WellTyped, ShiftTable, GetShamt, RowCode;
    RoomOf(L, s);
    var j := s.regs[rs] % 32;
    ShiftLookup(L, kind, 0, j);
    var s1, x := GetShamtRuns(L, rs, s);
    t := RowRuns(L, ShiftTable(L, kind), j, s1);
    RunAppend(GetShamt(L, S0, rs), RowCode(L, ShiftTable(L, kind)), s);
    RowShape(L, rs, ShiftTable(L, kind));
  }

  lemma RowShape(L: Layout, rs: Reg, table: int)
    ensures ShiftRow(L, rs, table) == GetShamt(L, S0, rs) + RowCode(L, table)
  {
  }

  // ---------------------------------------------------------------- one entry

  /** inst-replace.h:392-397: tp = the entry of byte k. */
  lemma ShiftByteRuns(L: Layout, kind: Shift, j: nat, w: Word, k: ByteNo, s: State) returns (t: State)
    requires LayoutOK(L) && AtRow(L, kind, j, w, s)
    ensures t == Run(ShiftByte(S0, k), s) && AtRow(L, kind, j, w, t)
    ensures 0 <= Byte(w, k) < 256 && 0 <= Entry(kind, Byte(w, k), j) < W
    ensures Apart(t) == Apart(s).(regs := s.regs[TP := Entry(kind, Byte(w, k), j)])
  {
    hide LayoutOK, RomOK, Slots, Rest, Run, Step, LoadWord, WellTyped, WordAt, ShiftTable, Entry, SlliCode;
    RoomOf(L, s);
    var x := Byte(w, k);
    ShiftLookup(L, kind, x, j);
    var y := Entry(kind, x, j);
    var s1 := GetLbu(TP, VAR_A, k, s);
    var s2 := SlliTwo(TP, s1, x);
    var s3 := DoAdd(TP, S0, TP, s2);
    RomKept(L, s, s3);
    t := GetRomWord(L, TP, TP, y, s3);
    RomKept(L, s, t);
    Run1(LbuSlot(TP, VAR_A, k), s);
    Run2(Machine.Add(TP, S0, TP), Lw(TP, 0, TP), s2);
    RunAppend(SlliCode(TP, TP, 2), [Machine.Add(TP, S0, TP), Lw(TP, 0, TP)], s1);
    RunAppend([LbuSlot(TP, VAR_A, k)], SlliCode(TP, TP, 2) + [Machine.Add(TP, S0, TP), Lw(TP, 0, TP)], s);
    SettleEntry(s.regs, x, 4 * x, s3.regs[TP], y);
  }

  lemma SettleEntry(regs: seq<int>, a: int, b: int, c: int, d: int)
    requires |regs| == 32
    ensures SetReg(SetReg(SetReg(SetReg(regs, TP, a), TP, b), TP, c), TP, d) == regs[TP := d]
  {
  }

  // ---------------------------------------------------------------- halfwords into a slot

  function WithHalf(w: Word, v: int): Word {
    w.(b2 := v % 256, b3 := Byte(Split(v), 1))
  }

  /** sh into the upper half of a slot. */
  lemma ShSlotRuns(rs: Reg, n: Slot, s: State) returns (t: State)
    requires Room(s) && n != VAR_C
    ensures t == Run(ShCode(rs, -4 * n + 2, SP), s) && Room(t)
    ensures var v := s.regs[rs];
            Apart(t) == Parts(s.regs[TP := Byte(Split(v), 1)],
                              Slots(s)[VAR_C := Split(v)][n := WithHalf(Slots(s)[n], v)], Rest(s))
  {
    hide Slots, Rest, Run, Step, LoadWord, WellTyped, Split, GetByte;
    MacroCompare.RoomRegs(s);
    var v := s.regs[rs];
    var s1 := DoSb(rs, n, 2, s);
    var s2 := GetByteRuns(TP, rs, 1, s1);
    SecondByte(v);
    t := DoSb(TP, n, 3, s2);
    Run1(SbSlot(TP, n, 3), s2);
    RunAppend(GetByte(TP, rs, 1), [SbSlot(TP, n, 3)], s1);
    Run1(SbSlot(rs, n, 2), s);
    RunAppend([SbSlot(rs, n, 2)], GetByte(TP, rs, 1) + [SbSlot(TP, n, 3)], s);
    SettleHalf(Slots(s), n, v % 256, Byte(Split(v), 1), Split(v));
  }

  lemma SecondByte(v: int)
    ensures Byte(Split(v), 1) % 256 == Byte(Split(v), 1)
  {
  }

  lemma SettleHalf(slots: seq<Word>, n: Slot, a: int, b: int, w: Word)
    requires |slots| == 8 && n != VAR_C
    ensures (var x := slots[n := WithByte(slots[n], 2, a)][VAR_C := w];
             x[n := WithByte(x[n], 3, b)] == slots[VAR_C := w][n := slots[n].(b2 := a, b3 := b)])
  {
  }

  // ---------------------------------------------------------------- left shift

  lemma ByteThree(y: int)
    ensures Join(WithByte(Word(0, 0, 0, 0), 3, y % 256)) == 0x100_0000 * (y % 0x100)
  {
  }

  lemma UpperHalf(w: Word, y: int)
    requires w.b0 == 0 && w.b1 == 0 && 0 <= y
    ensures Join(WithHalf(w, y)) == 0x1_0000 * (y % 0x1_0000)
  {
    DivMul(y, 0x100, 0x100);
    var q, m := (y / 0x100) % 0x100, y % 0x100;
    assert WithHalf(w, y) == Word(0, 0, m, q);
  }

  /** A step of the sum: the row is still there, s0's saved value too, and only gp and tp moved. */
  ghost predicate SumStep(L: Layout, kind: Shift, j: nat, w: Word, s: State, t: State) {
    && AtRow(L, kind, j, w, s) && AtRow(L, kind, j, w, t) && Rest(t) == Rest(s) && Slots(t)[1] == Slots(s)[1]
    && forall r | 0 <= r < 32 && r != GP && r != TP :: t.regs[r] == s.regs[r]
  }

  lemma SllFirst(L: Layout, j: nat, w: Word, s: State) returns (t: State)
    requires LayoutOK(L) && AtRow(L, SLL, j, w, s)
    ensures t == Run([SwSlot(ZERO, VAR_B)] + (ShiftByte(S0, 3) + [SbSlot(TP, VAR_B, 3), LwSlot(GP, VAR_B)]), s)
    ensures SumStep(L, SLL, j, w, s, t) && t.regs[GP] == 0x100_0000 * (Shl32(w.b3, j) % 0x100)
    ensures Slots(t)[VAR_B].b0 == 0 && Slots(t)[VAR_B].b1 == 0
  {
    hide LayoutOK, RomOK, Slots, Rest, Run, Step, LoadWord, WellTyped, ShiftTable, Entry, ShiftByte, Split, WithByte,
         Join, Shl32;
    RoomOf(L, s);
    ZeroSplit();
    var s1 := DoSw(ZERO, VAR_B, s);
    RomKept(L, s, s1);
    var s2 := ShiftByteRuns(L, SLL, j, w, 3, s1);
    RoomOf(L, s2);
    var y := Entry(SLL, w.b3, j);
    SllEntry(w.b3, j);
    ByteThree(y);
    var s3 := DoSb(TP, VAR_B, 3, s2);
    t := GetLw(GP, VAR_B, s3);
    RomKept(L, s, t);
    Run1(SwSlot(ZERO, VAR_B), s);
    Run2(SbSlot(TP, VAR_B, 3), LwSlot(GP, VAR_B), s2);
    RunAppend(ShiftByte(S0, 3), [SbSlot(TP, VAR_B, 3), LwSlot(GP, VAR_B)], s1);
    RunAppend([SwSlot(ZERO, VAR_B)], ShiftByte(S0, 3) + [SbSlot(TP, VAR_B, 3), LwSlot(GP, VAR_B)], s);
    LowBytesKept(Word(0, 0, 0, 0), y % 256);
  }

  lemma ZeroSplit()
    ensures Split(0) == Word(0, 0, 0, 0)
  {
  }

  lemma LowBytesKept(w: Word, b: int)
    ensures WithByte(w, 3, b).b0 == w.b0 && WithByte(w, 3, b).b1 == w.b1
  {
  }

  lemma SllEntry(x: nat, j: nat)
    ensures Entry(SLL, x, j) == Shl32(x, j)
  {
  }

  lemma SllSecond(L: Layout, j: nat, w: Word, s: State) returns (t: State)
    requires LayoutOK(L) && AtRow(L, SLL, j, w, s) && Slots(s)[VAR_B].b0 == 0 && Slots(s)[VAR_B].b1 == 0
    ensures t == Run(ShiftByte(S0, 2)
                     + (ShCode(TP, -4 * VAR_B + 2, SP) + [LwSlot(TP, VAR_B), Machine.Add(GP, GP, TP)]), s)
    ensures SumStep(L, SLL, j, w, s, t)
    ensures t.regs[GP] == (s.regs[GP] + 0x1_0000 * (Shl32(w.b2, j) % 0x1_0000)) % W
  {
    hide LayoutOK, RomOK, Slots, Rest, Run, Step, LoadWord, WellTyped, ShiftTable, Entry, ShiftByte, Split, WithHalf,
         Join, Shl32, ShCode;
    RoomOf(L, s);
    var s1 := ShiftByteRuns(L, SLL, j, w, 2, s);
    RoomOf(L, s1);
    var y := Entry(SLL, w.b2, j);
    SllEntry(w.b2, j);
    UpperHalf(Slots(s)[VAR_B], y);
    var s2 := ShSlotRuns(TP, VAR_B, s1);
    RomKept(L, s, s2);
    var s3 := GetLw(TP, VAR_B, s2);
    t := DoAdd(GP, GP, TP, s3);
    RomKept(L, s, t);
    var i := [LwSlot(TP, VAR_B), Machine.Add(GP, GP, TP)];
    Run2(LwSlot(TP, VAR_B), Machine.Add(GP, GP, TP), s2);
    RunAppend(ShCode(TP, -4 * VAR_B + 2, SP), i, s1);
    RunAppend(ShiftByte(S0, 2), ShCode(TP, -4 * VAR_B + 2, SP) + i, s);
  }

  lemma SllThird(L: Layout, j: nat, w: Word, s: State) returns (t: State)
    requires LayoutOK(L) && AtRow(L, SLL, j, w, s)
    ensures t == Run(ShiftByte(S0, 1) + (SlliCode(TP, TP, 8) + [Machine.Add(GP, GP, TP)]), s)
    ensures SumStep(L, SLL, j, w, s, t)
    ensures t.regs[GP] == (s.regs[GP] + (Shl32(w.b1, j) * 0x100) % W) % W
  {
    Powers();
    hide LayoutOK, RomOK, Slots, Rest, Run, Step, LoadWord, WellTyped, ShiftTable, Entry, ShiftByte, Shl32, SlliCode,
         Pow2;
    RoomOf(L, s);
    var s1 := ShiftByteRuns(L, SLL, j, w, 1, s);
    RoomOf(L, s1);
    SllEntry(w.b1, j);
    var s2 := SlliRuns(TP, TP, 8, s1);
    RegOnly(s1, s2, TP, s2.regs[TP]);
    t := DoAdd(GP, GP, TP, s2);
    RomKept(L, s, t);
    var i := [Machine.Add(GP, GP, TP)];
    Run1(Machine.Add(GP, GP, TP), s2);
    RunAppend(SlliCode(TP, TP, 8), i, s1);
    RunAppend(ShiftByte(S0, 1), SlliCode(TP, TP, 8) + i, s);
  }

  /** The last byte is added after s0 is restored. */
  lemma LastByte(L: Layout, kind: Shift, j: nat, w: Word, k: ByteNo, rd: Reg, v: int, s: State)
    returns (u: State, t: State)
    requires LayoutOK(L) && AtRow(L, kind, j, w, s) && Slots(s)[1] == Split(v) && 0 <= v < W
    ensures t == Run(ShiftByte(S0, k) + [LwSlot(S0, 1), Machine.Add(rd, GP, TP)], s) && WellTyped(t)
    ensures RomOK(L, u) && Rest(u) == Rest(s) && u.regs == s.regs[TP := Entry(kind, Byte(w, k), j)][S0 := v]
    ensures t == State(SetReg(u.regs, rd, (s.regs[GP] + Entry(kind, Byte(w, k), j)) % W), u.mem)
  {
    hide LayoutOK, RomOK, Slots, Rest, Run, LoadWord, WellTyped, ShiftTable, Entry, ShiftByte, Split, Join;
    RoomOf(L, s);
    JoinSplit(v);
    var s1 := ShiftByteRuns(L, kind, j, w, k, s);
    RoomOf(L, s1);
    u := GetLw(S0, 1, s1);
    RomKept(L, s, u);
    var i := Machine.Add(rd, GP, TP);
    t := Step(i, u);
    StepTyped(i, u);
    Run2(LwSlot(S0, 1), i, s1);
    RunAppend(ShiftByte(S0, k), [LwSlot(S0, 1), i], s);
  }

  /** inst-replace.h:412-429 as one step per byte. */
  lemma SllSumRuns(L: Layout, j: nat, w: Word, rd: Reg, v: int, s: State) returns (u: State, t: State)
    requires LayoutOK(L) && AtRow(L, SLL, j, w, s) && Slots(s)[1] == Split(v) && 0 <= v < W
    ensures t == Run(SllSum(rd), s) && WellTyped(t) && RomOK(L, u) && Rest(u) == Rest(s)
    ensures forall r | 0 <= r < 32 && r != GP && r != TP && r != S0 :: u.regs[r] == s.regs[r]
    ensures u.regs[S0] == v
    ensures var y3, y2, y1, y0 := Shl32(w.b3, j), Shl32(w.b2, j), Shl32(w.b1, j), Shl32(w.b0, j);
            t == State(SetReg(u.regs, rd,
                              (((0x100_0000 * (y3 % 0x100) + 0x1_0000 * (y2 % 0x1_0000)) % W + (y1 * 0x100) % W) % W
                               + y0) % W), u.mem)
  {
    hide LayoutOK, RomOK, Slots, Rest, Run, LoadWord, WellTyped, Entry, ShiftByte, ShCode, SlliCode, Split, Shl32;
    RoomOf(L, s);
    var s1 := SllFirst(L, j, w, s);
    RoomOf(L, s1);
    var s2 := SllSecond(L, j, w, s1);
    RoomOf(L, s2);
    var s3 := SllThird(L, j, w, s2);
    RoomOf(L, s3);
    SllEntry(w.b0, j);
    u, t := LastByte(L, SLL, j, w, 0, rd, v, s3);
    var c0 := [SwSlot(ZERO, VAR_B)] + (ShiftByte(S0, 3) + [SbSlot(TP, VAR_B, 3), LwSlot(GP, VAR_B)]);
    var c1 := ShiftByte(S0, 2) + (ShCode(TP, -4 * VAR_B + 2, SP) + [LwSlot(TP, VAR_B), Machine.Add(GP, GP, TP)]);
    var c2 := ShiftByte(S0, 1) + (SlliCode(TP, TP, 8) + [Machine.Add(GP, GP, TP)]);
    var c3 := ShiftByte(S0, 0) + [LwSlot(S0, 1), Machine.Add(rd, GP, TP)];
    RunAppend(c2, c3, s2);
    RunAppend(c1, c2 + c3, s1);
    RunAppend(c0, c1 + (c2 + c3), s);
    SllSumShape(rd);
  }

  lemma SllSumShape(rd: Reg)
    ensures SllSum(rd)
         == ([SwSlot(ZERO, VAR_B)] + (ShiftByte(S0, 3) + [SbSlot(TP, VAR_B, 3), LwSlot(GP, VAR_B)]))
            + ((ShiftByte(S0, 2) + (ShCode(TP, -4 * VAR_B + 2, SP) + [LwSlot(TP, VAR_B), Machine.Add(GP, GP, TP)]))
               + ((ShiftByte(S0, 1) + (SlliCode(TP, TP, 8) + [Machine.Add(GP, GP, TP)]))
                  + (ShiftByte(S0, 0) + [LwSlot(S0, 1), Machine.Add(rd, GP, TP)])))
  {
    hide ShiftByte, ShCode, SlliCode;
  }

  /** inst-replace.h:399-430 */
  lemma SllRuns(L: Layout, rd: Reg, rs1: Reg, rs2: Reg, s: State) returns (t: State)
    requires LayoutOK(L) && RomOK(L, s)
    ensures t == Run(SllCode(L, rd, rs1, rs2), s) && 0 <= s.regs[rs1] && 0 <= s.regs[rs2]
    ensures Effect(L, rd, Shl32(s.regs[rs1], s.regs[rs2] % 32), s, t)
  {
    hide LayoutOK, RomOK, Slots, Rest, Run, LoadWord, WellTyped, ShiftRow, SllSum, Split, Shl32, Step;
    RoomOf(L, s);
    var v, w, j := s.regs[rs1], Split(s.regs[rs1]), s.regs[rs2] % 32;
    JoinSplit(v);
    var s2 := ShiftEntryRuns(L, SLL, rs1, s);
    var s3 := ShiftRowRuns(L, SLL, rs2, s2);
    RoomOf(L, s3);
    LeftShiftParts(v, j, Shl32(w.b3, j), Shl32(w.b2, j), Shl32(w.b1, j), Shl32(w.b0, j));
    var u;
    u, t := SllSumRuns(L, j, w, rd, s.regs[S0], s3);
    RunAppend(ShiftRow(L, rs2, L.Sll8()), SllSum(rd), s2);
    RunAppend([SwSlot(S0, 1), SwSlot(rs1, VAR_A)], ShiftRow(L, rs2, L.Sll8()) + SllSum(rd), s);
    EffectBy(L, rd, Shl32(v, j), s, u, t);
  }

  /** s0 saved, the operand in slot A. */
  lemma ShiftEntryRuns(L: Layout, kind: Shift, rs1: Reg, s: State) returns (t: State)
    requires RomOK(L, s)
    ensures t == Run([SwSlot(S0, 1), SwSlot(rs1, VAR_A)], s) && RomOK(L, t) && Rest(t) == Rest(s)
    ensures t.regs == s.regs && Slots(t)[1] == Split(s.regs[S0]) && Slots(t)[VAR_A] == Split(s.regs[rs1])
  {
    hide RomOK, Slots, Rest, Run, LoadWord, WellTyped, Split, Step;
    RoomOf(L, s);
    var s1 := DoSw(S0, 1, s);
    t := DoSw(rs1, VAR_A, s1);
    RomKept(L, s, t);
    Run2(SwSlot(S0, 1), SwSlot(rs1, VAR_A), s);
  }
}
