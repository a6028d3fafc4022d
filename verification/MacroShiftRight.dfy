/** srl, sra, srli and srai by byte tables (inst-replace.h:432-523, 554-562). */
module MacroShiftRight {
  import opened Bits
  import opened Machine
  import opened Scratch
  import opened MiniRv
  import opened Tables
  import opened MacroBasics
  import opened ShiftArith
  import opened Effects
  import opened MacroShift
  import MacroCompare

  /** One entry fetched and put into a slot. */
  lemma FetchRuns(L: Layout, j: nat, w: Word, k: ByteNo, n: Slot, s: State) returns (t: State)
    requires LayoutOK(L) && AtRow(L, SRL, j, w, s) && n != 1 && n != VAR_A
    ensures t == Run(ShiftByte(S0, k) + [SwSlot(TP, n)], s)
    ensures SumStep(L, SRL, j, w, s, t) && t.regs[GP] == s.regs[GP]
    ensures 0 <= Byte(w, k) < 256 && Slots(t) == Slots(s)[n := Split(Entry(SRL, Byte(w, k), j))]
  {
    hide LayoutOK, RomOK, Slots, Rest, Run, LoadWord, WellTyped, Entry, ShiftByte, Split, Step, ShiftTable;
    RoomOf(L, s);
    var s1 := ShiftByteRuns(L, SRL, j, w, k, s);
    RoomOf(L, s1);
    t := DoSw(TP, n, s1);
    RomKept(L, s, t);
    Run1(SwSlot(TP, n), s1);
    RunAppend(ShiftByte(S0, k), [SwSlot(TP, n)], s);
  }

  /** inst-replace.h:475-480 */
  function Fetches(): seq<Base> {
    (ShiftByte(S0, 2) + [SwSlot(TP, VAR_B)])
        + ((ShiftByte(S0, 1) + [SwSlot(TP, VAR_C)]) + (ShiftByte(S0, 0) + [SwSlot(TP, VAR_D)]))
  }

  lemma FetchesRun(L: Layout, j: nat, w: Word, s: State) returns (t: State)
    requires LayoutOK(L) && AtRow(L, SRL, j, w, s)
    ensures t == Run(Fetches(), s) && SumStep(L, SRL, j, w, s, t)
    ensures 0 <= w.b2 && 0 <= w.b1 && 0 <= w.b0 && Slots(t)[VAR_B] == Split(Entry(SRL, w.b2, j))
    ensures Slots(t)[VAR_C] == Split(Entry(SRL, w.b1, j)) && Slots(t)[VAR_D] == Split(Entry(SRL, w.b0, j))
  {
    hide LayoutOK, RomOK, Slots, Rest, Run, LoadWord, WellTyped, Entry, ShiftByte, Split, Step, ShiftTable;
    RoomOf(L, s);
    var s1 := FetchRuns(L, j, w, 2, VAR_B, s);
    var s2 := FetchRuns(L, j, w, 1, VAR_C, s1);
    t := FetchRuns(L, j, w, 0, VAR_D, s2);
    var a, b, c := ShiftByte(S0, 2) + [SwSlot(TP, VAR_B)], ShiftByte(S0, 1) + [SwSlot(TP, VAR_C)],
        ShiftByte(S0, 0) + [SwSlot(TP, VAR_D)];
    RoomOf(L, s1);
    RunAppend(b, c, s1);
    RunAppend(a, b + c, s);
  }

  /** inst-replace.h:484-489 */
  function Byte0Code(): seq<Base> {
    [LbuSlot(GP, VAR_B, 1), LbuSlot(TP, VAR_C, 2), Machine.Add(GP, GP, TP), LbuSlot(TP, VAR_D, 3),
     Machine.Add(GP, GP, TP), SwSlot(GP, VAR_D)]
  }

  /** inst-replace.h:492-495 */
  function Byte1Code(): seq<Base> {
    [LbuSlot(GP, VAR_B, 2), LbuSlot(TP, VAR_C, 3), Machine.Add(GP, GP, TP), SbSlot(GP, VAR_D, 1)]
  }

  /** inst-replace.h:498-502 */
  function Byte2Code(): seq<Base> {
    [LbuSlot(GP, VAR_B, 3), SbSlot(GP, VAR_D, 2), LwSlot(GP, VAR_D)]
  }

  /** Only gp, tp and the slots from B on may have changed. */
  ghost predicate Working(s: State, t: State) {
    && Room(s) && Room(t) && Rest(t) == Rest(s) && Slots(t)[1] == Slots(s)[1] && Slots(t)[VAR_A] == Slots(s)[VAR_A]
    && Slots(t)[VAR_B] == Slots(s)[VAR_B] && Slots(t)[VAR_C] == Slots(s)[VAR_C]
    && forall r | 0 <= r < 32 && r != GP && r != TP :: t.regs[r] == s.regs[r]
  }

  lemma SmallSplit(v: int)
    requires 0 <= v < 256
    ensures Split(v) == Word(v, 0, 0, 0)
  {
  }

  lemma Byte0Runs(s: State, x: Word, y: Word, z: Word) returns (t: State)
    requires Room(s) && Slots(s)[VAR_B] == x && Slots(s)[VAR_C] == y && Slots(s)[VAR_D] == z
    requires IsWord(x) && IsWord(y) && IsWord(z) && x.b1 + y.b2 + z.b3 < 256
    ensures t == Run(Byte0Code(), s) && Working(s, t) && Slots(t)[VAR_D] == Word(x.b1 + y.b2 + z.b3, 0, 0, 0)
  {
    hide Slots, Rest, Run, LoadWord, WellTyped, Split, Step;
    MacroCompare.RoomRegs(s);
    var s1 := GetLbu(GP, VAR_B, 1, s);
    var s2 := GetLbu(TP, VAR_C, 2, s1);
    var s3 := DoAdd(GP, GP, TP, s2);
    var s4 := GetLbu(TP, VAR_D, 3, s3);
    var s5 := DoAdd(GP, GP, TP, s4);
    t := DoSw(GP, VAR_D, s5);
    SmallSplit(x.b1 + y.b2 + z.b3);
    var a, b := [LbuSlot(GP, VAR_B, 1), LbuSlot(TP, VAR_C, 2), Machine.Add(GP, GP, TP)],
        [LbuSlot(TP, VAR_D, 3), Machine.Add(GP, GP, TP), SwSlot(GP, VAR_D)];
    Run3(LbuSlot(GP, VAR_B, 1), LbuSlot(TP, VAR_C, 2), Machine.Add(GP, GP, TP), s);
    Run3(LbuSlot(TP, VAR_D, 3), Machine.Add(GP, GP, TP), SwSlot(GP, VAR_D), s3);
    RunAppend(a, b, s);
    assert Byte0Code() == a + b;
  }

  lemma Byte1Runs(s: State, x: Word, y: Word, d: int) returns (t: State)
    requires Room(s) && Slots(s)[VAR_B] == x && Slots(s)[VAR_C] == y && Slots(s)[VAR_D] == Word(d, 0, 0, 0)
    requires IsWord(x) && IsWord(y) && x.b2 + y.b3 < 256
    ensures t == Run(Byte1Code(), s) && Working(s, t) && Slots(t)[VAR_D] == Word(d, x.b2 + y.b3, 0, 0)
  {
    hide Slots, Rest, Run, LoadWord, WellTyped, Split, Step;
    MacroCompare.RoomRegs(s);
    var s1 := GetLbu(GP, VAR_B, 2, s);
    var s2 := GetLbu(TP, VAR_C, 3, s1);
    var s3 := DoAdd(GP, GP, TP, s2);
    t := DoSb(GP, VAR_D, 1, s3);
    Run4(LbuSlot(GP, VAR_B, 2), LbuSlot(TP, VAR_C, 3), Machine.Add(GP, GP, TP), SbSlot(GP, VAR_D, 1), s);
  }

  lemma Byte2Runs(s: State, x: Word, d: int, e: int) returns (t: State)
    requires Room(s) && Slots(s)[VAR_B] == x && Slots(s)[VAR_D] == Word(d, e, 0, 0) && IsWord(x)
    ensures t == Run(Byte2Code(), s) && Working(s, t) && t.regs[GP] == Join(Word(d, e, x.b3, 0))
  {
    hide Slots, Rest, Run, LoadWord, WellTyped, Join, Step;
    MacroCompare.RoomRegs(s);
    var s1 := GetLbu(GP, VAR_B, 3, s);
    var s2 := DoSb(GP, VAR_D, 2, s1);
    t := GetLw(GP, VAR_D, s2);
    Run3(LbuSlot(GP, VAR_B, 3), SbSlot(GP, VAR_D, 2), LwSlot(GP, VAR_D), s);
  }

  lemma WorkingTrans(s: State, t: State, u: State)
    requires Working(s, t) && Working(t, u)
    ensures Working(s, u)
  {
  }

  lemma AssembleRuns(s: State, x: Word, y: Word, z: Word) returns (t: State)
    requires Room(s) && Slots(s)[VAR_B] == x && Slots(s)[VAR_C] == y && Slots(s)[VAR_D] == z
    requires IsWord(x) && IsWord(y) && IsWord(z) && x.b1 + y.b2 + z.b3 < 256 && x.b2 + y.b3 < 256
    ensures t == Run(Byte0Code() + (Byte1Code() + Byte2Code()), s) && Working(s, t)
    ensures t.regs[GP] == Join(Word(x.b1 + y.b2 + z.b3, x.b2 + y.b3, x.b3, 0))
  {
    hide Slots, Rest, Run, LoadWord, WellTyped, Join, Byte0Code, Byte1Code, Byte2Code;
    var s1 := Byte0Runs(s, x, y, z);
    var s2 := Byte1Runs(s1, x, y, x.b1 + y.b2 + z.b3);
    t := Byte2Runs(s2, x, x.b1 + y.b2 + z.b3, x.b2 + y.b3);
    WorkingTrans(s, s1, s2);
    WorkingTrans(s, s2, t);
    RunTwice(Byte0Code(), Byte1Code(), Byte2Code(), s);
  }

  lemma RunTwice(a: seq<Base>, b: seq<Base>, c: seq<Base>, s: State)
    requires WellTyped(s)
    ensures Run(a + (b + c), s) == Run(c, Run(b, Run(a, s)))
  {
    RunAppend(a, b + c, s);
    RunAppend(b, c, Run(a, s));
  }

  /** gp becomes the three lower bytes of the operand, shifted right. */
  lemma LowBytesRun(L: Layout, j: nat, w: Word, s: State) returns (t: State)
    requires LayoutOK(L) && AtRow(L, SRL, j, w, s)
    ensures t == Run(LowBytes(), s) && SumStep(L, SRL, j, w, s, t) && t.regs[GP] == Low24(w) / Pow2(j)
  {
    hide LayoutOK, RomOK, Slots, Rest, Run, LoadWord, WellTyped, Entry, Split, Join, Low24, Pow2, Fetches, Byte0Code,
         Byte1Code, Byte2Code, ShiftTable;
    RoomOf(L, s);
    var s1 := FetchesRun(L, j, w, s);
    RoomOf(L, s1);
    SrlEntry(w.b2, j);
    SrlEntry(w.b1, j);
    SrlEntry(w.b0, j);
    LowCombine(w, j, Entry(SRL, w.b2, j), Entry(SRL, w.b1, j), Entry(SRL, w.b0, j));
    t := AssembleRuns(s1, Slots(s1)[VAR_B], Slots(s1)[VAR_C], Slots(s1)[VAR_D]);
    RomKept(L, s1, t);
    RunAppend(Fetches(), Byte0Code() + (Byte1Code() + Byte2Code()), s);
    LowBytesShape();
  }

  lemma SrlEntry(x: nat, j: nat)
    requires x < 256
    ensures 0 <= Entry(SRL, x, j) < W && Entry(SRL, x, j) == Shr(x * 0x100_0000, j)
  {
    hide Shr;
    EntryRange(SRL, x, j);
  }

  lemma LowBytesShape()
    ensures LowBytes() == Fetches() + (Byte0Code() + (Byte1Code() + Byte2Code()))
  {
    hide ShiftByte;
  }

  // ---------------------------------------------------------------- the top byte

  function RightKind(arith: bool): Shift {
    if arith then SRA else SRL
  }

  /** For an arithmetic shift the row moves to the arithmetic table, inst-replace.h:504-507. */
  function ToArith(L: Layout, arith: bool): seq<Base> {
    if arith then La(TP, L.Sra8() - L.Srl8()) + [Machine.Add(S0, S0, TP)] else []
  }

  lemma ToArithRuns(L: Layout, arith: bool, j: nat, w: Word, s: State) returns (t: State)
    requires LayoutOK(L) && AtRow(L, SRL, j, w, s)
    ensures t == Run(ToArith(L, arith), s) && AtRow(L, RightKind(arith), j, w, t)
    ensures Rest(t) == Rest(s) && Slots(t) == Slots(s) && t.regs[GP] == s.regs[GP]
    ensures forall r | 0 <= r < 32 && r != S0 && r != TP :: t.regs[r] == s.regs[r]
  {
    hide LayoutOK, RomOK, Slots, Rest, LoadWord, WellTyped, Step, La;
    RoomOf(L, s);
    t := s;
    if arith {
      var d := L.Sra8() - L.Srl8();
      ShiftLookup(L, SRA, 0, j);
      var s1 := DoLa(TP, d, s);
      t := DoAdd(S0, S0, TP, s1);
      RomKept(L, s, t);
      var i := Machine.Add(S0, S0, TP);
      Run1(i, s1);
      RunAppend(La(TP, d), [i], s);
    }
  }

  lemma RightTailShape(L: Layout, rd: Reg, arith: bool)
    ensures RightTail(L, rd, arith) == ToArith(L, arith) + (ShiftByte(S0, 3) + [LwSlot(S0, 1), Machine.Add(rd, GP, TP)])
  {
    hide ShiftByte, La;
  }

  lemma RightResult(v: int, j: nat, arith: bool)
    requires 0 <= v < W && j < 32
    ensures IsWord(Split(v)) && Pow2(j) > 0
    ensures (Low24(Split(v)) / Pow2(j) + Entry(RightKind(arith), Split(v).b3, j)) % W == ShiftOp(RightKind(arith), v, j)
  {
    hide Split, Pow2, Low24, Shr, Sar32;
    RightShiftParts(v, j);
    EntryRange(SRL, Split(v).b3, j);
    SrlNonNegative(v, j);
  }

  lemma SrlNonNegative(v: nat, j: nat)
    ensures 0 <= Shr(v, j)
  {
  }

  /** From the row to the result. */
  lemma RightSum(L: Layout, rd: Reg, arith: bool, j: nat, v: int, saved: int, s: State) returns (u: State, t: State)
    requires LayoutOK(L) && 0 <= v < W && 0 <= saved < W && AtRow(L, SRL, j, Split(v), s) && Slots(s)[1] == Split(saved)
    ensures t == Run(LowBytes() + RightTail(L, rd, arith), s) && WellTyped(t)
    ensures RomOK(L, u) && Rest(u) == Rest(s) && u.regs[S0] == saved
    ensures forall r | 0 <= r < 32 && r != GP && r != TP && r != S0 :: u.regs[r] == s.regs[r]
    ensures t == State(SetReg(u.regs, rd, ShiftOp(RightKind(arith), v, j)), u.mem)
  {
    hide LayoutOK, RomOK, Slots, Rest, Run, LoadWord, WellTyped, Entry, Split, Low24, Pow2, LowBytes, ToArith,
         ShiftByte, Shr, Sar32, Step, ShiftTable;
    RoomOf(L, s);
    var w := Split(v);
    RightResult(v, j, arith);
    var s1 := LowBytesRun(L, j, w, s);
    RoomOf(L, s1);
    var s2 := ToArithRuns(L, arith, j, w, s1);
    RoomOf(L, s2);
    u, t := LastByte(L, RightKind(arith), j, w, 3, rd, saved, s2);
    var c := ShiftByte(S0, 3) + [LwSlot(S0, 1), Machine.Add(rd, GP, TP)];
    RunTwice(LowBytes(), ToArith(L, arith), c, s);
    RightTailShape(L, rd, arith);
  }

  /** inst-replace.h:515-523: srl and sra by a register. */
  lemma RightRuns(L: Layout, rd: Reg, rs1: Reg, rs2: Reg, arith: bool, s: State) returns (t: State)
    requires LayoutOK(L) && RomOK(L, s)
    ensures t == Run(RightCode(L, rd, rs1, rs2, arith), s) && 0 <= s.regs[rs1] && 0 <= s.regs[rs2]
    ensures Effect(L, rd, ShiftOp(RightKind(arith), s.regs[rs1], s.regs[rs2] % 32), s, t)
  {
    hide LayoutOK, RomOK, Slots, Rest, Run, LoadWord, WellTyped, Split, LowBytes, RightTail, ShiftOp, Step, ShiftRow;
    RoomOf(L, s);
    var v, j := s.regs[rs1], s.regs[rs2] % 32;
    JoinSplit(v);
    var s2 := ShiftEntryRuns(L, SRL, rs1, s);
    var s3 := ShiftRowRuns(L, SRL, rs2, s2);
    var u;
    u, t := RightSum(L, rd, arith, j, v, s.regs[S0], s3);
    RunTwice([SwSlot(S0, 1), SwSlot(rs1, VAR_A)], ShiftRow(L, rs2, L.Srl8()), LowBytes() + RightTail(L, rd, arith), s);
    EffectBy(L, rd, ShiftOp(RightKind(arith), v, j), s, u, t);
  }

  /** The constant amount picks the row directly. */
  lemma ImmRowRuns(L: Layout, imm: nat, s: State) returns (t: State)
    requires LayoutOK(L) && RomOK(L, s) && imm < 32 && IsWord(Slots(s)[VAR_A])
    ensures t == Run(La(S0, L.Srl8() + imm * 1024), s) && AtRow(L, SRL, imm, Slots(s)[VAR_A], t)
    ensures Rest(t) == Rest(s) && Slots(t) == Slots(s) && forall r | 0 <= r < 32 && r != S0 :: t.regs[r] == s.regs[r]
  {
    hide LayoutOK, RomOK, Slots, Rest, Run, LoadWord, WellTyped, La;
    RoomOf(L, s);
    ShiftLookup(L, SRL, 0, imm);
    t := DoLa(S0, L.Srl8() + imm * 1024, s);
    RomKept(L, s, t);
  }

  /** inst-replace.h:554-562: srli and srai. */
  lemma RightImmRuns(L: Layout, rd: Reg, rs1: Reg, imm: nat, arith: bool, s: State) returns (t: State)
    requires LayoutOK(L) && RomOK(L, s) && imm < 32 && rd != TP
    ensures t == Run(RightImmCode(L, rd, rs1, imm, arith), s) && 0 <= s.regs[rs1]
    ensures Effect(L, rd, ShiftOp(RightKind(arith), s.regs[rs1], imm), s, t)
  {
    hide LayoutOK, RomOK, Slots, Rest, Run, LoadWord, WellTyped, Split, LowBytes, RightTail, ShiftOp, Step, Effect, La;
    RoomOf(L, s);
    if imm != 24 {
      var v := s.regs[rs1];
      JoinSplit(v);
      var s2 := ShiftEntryRuns(L, SRL, rs1, s);
      var s3 := ImmRowRuns(L, imm, s2);
      var u;
      u, t := RightSum(L, rd, arith, imm, v, s.regs[S0], s3);
      RunTwice([SwSlot(S0, 1), SwSlot(rs1, VAR_A)], La(S0, L.Srl8() + imm * 1024),
               LowBytes() + RightTail(L, rd, arith), s);
      EffectBy(L, rd, ShiftOp(RightKind(arith), v, imm), s, u, t);
    } else if arith {
      Ops(s.regs[rs1], 24);
      if rd == SP {
        t := Sra24IntoSp(L, rs1, s);
      } else {
        t := Sra24Runs(L, rd, rs1, s);
      }
    } else {
      Ops(s.regs[rs1], 24);
      t := Srl24Runs(L, rd, rs1, s);
    }
  }

  lemma TopByte(v: int)
    requires 0 <= v < W
    ensures IsWord(Split(v)) && Split(v).b3 == Shr(v, 24)
    ensures Entry(SRA, Split(v).b3, 24) == Sar32(v, 24)
  {
    hide Split, Pow2, Sar32;
    Powers();
    JoinSplit(v);
    RightShiftParts(v, 24);
    var w := Split(v);
    IntDivMod(Low24(w), 0x100_0000, 0, Low24(w));
    IntDivMod(w.b3 * 0x100_0000, 0x100_0000, w.b3, 0);
    SarRange(w.b3 * 0x100_0000, 24);
  }

  lemma SarRange(x: int, j: nat)
    ensures Sar32(x, j) % W == Sar32(x, j)
  {
  }

  lemma Ops(v: nat, j: nat)
    ensures ShiftOp(SRA, v, j) == Sar32(v, j) && ShiftOp(SRL, v, j) == Shr(v, j)
  {
    hide Sar32, Shr;
  }

  lemma Srl24Runs(L: Layout, rd: Reg, rs1: Reg, s: State) returns (t: State)
    requires LayoutOK(L) && RomOK(L, s)
    ensures t == Run(GetByte(rd, rs1, 3), s) && 0 <= s.regs[rs1] && Effect(L, rd, Shr(s.regs[rs1], 24), s, t)
  {
    hide LayoutOK, RomOK, Slots, Rest, Run, LoadWord, WellTyped, Split, Step, Shr;
    RoomOf(L, s);
    TopByte(s.regs[rs1]);
    var s1 := DoSw(rs1, VAR_C, s);
    RomKept(L, s, s1);
    t := DoLbu(rd, VAR_C, 3, s1);
    Run2(SwSlot(rs1, VAR_C), LbuSlot(rd, VAR_C, 3), s);
    EffectBy(L, rd, Shr(s.regs[rs1], 24), s, s1, t);
  }

  lemma Sra24Runs(L: Layout, rd: Reg, rs1: Reg, s: State) returns (t: State)
    requires LayoutOK(L) && RomOK(L, s) && rd != TP && rd != SP
    ensures t == Run(RightImmCode(L, rd, rs1, 24, true), s) && 0 <= s.regs[rs1]
    ensures Effect(L, rd, Sar32(s.regs[rs1], 24), s, t)
  {
    hide LayoutOK, RomOK, Slots, Rest, Run, LoadWord, WellTyped, Split, Step, Sar32, La, Entry, WordAt, SlliCode, Shr;
    RoomOf(L, s);
    var v, w := s.regs[rs1], Split(s.regs[rs1]);
    TopByte(v);
    var x, base := if rd == ZERO then 0 else w.b3, L.Sra8() + 24 * 1024;
    ShiftLookup(L, SRA, x, 24);
    var y := Entry(SRA, x, 24);
    var s1 := DoSw(rs1, VAR_A, s);
    var s2 := DoLa(TP, base, s1);
    var s3 := GetLbu(rd, VAR_A, 3, s2);
    var s4 := SlliTwo(rd, s3, x);
    var s5 := DoAdd(TP, TP, rd, s4);
    RomKept(L, s, s5);
    t := GetRomWord(L, rd, TP, y, s5);
    Run1(SwSlot(rs1, VAR_A), s);
    Run1(LbuSlot(rd, VAR_A, 3), s2);
    var last := [Machine.Add(TP, TP, rd), Lw(rd, 0, TP)];
    Run2(Machine.Add(TP, TP, rd), Lw(rd, 0, TP), s4);
    RunTwice([LbuSlot(rd, VAR_A, 3)], SlliCode(rd, rd, 2), last, s2);
    RunTwice([SwSlot(rs1, VAR_A)], La(TP, base), [LbuSlot(rd, VAR_A, 3)] + (SlliCode(rd, rd, 2) + last), s);
    QuietEnd(L, s, t, t);
    Settle24(s.regs, rd, base, x, s5.regs[TP], y);
  }

  /** Into sp: no scratch byte is used after sp is written. */
  lemma Sra24IntoSp(L: Layout, rs1: Reg, s: State) returns (t: State)
    requires LayoutOK(L) && RomOK(L, s)
    ensures t == Run(RightImmCode(L, SP, rs1, 24, true), s) && 0 <= s.regs[rs1]
    ensures Effect(L, SP, Sar32(s.regs[rs1], 24), s, t)
  {
    hide LayoutOK, RomOK, Slots, Rest, Run, LoadWord, WellTyped, Split, Sar32, La, Entry, WordAt, SlliCode, Shr;
    RoomOf(L, s);
    var x, base := Split(s.regs[rs1]).b3, L.Sra8() + 24 * 1024;
    TopByte(s.regs[rs1]);
    ShiftLookup(L, SRA, x, 24);
    var y := Entry(SRA, x, 24);
    var s1 := DoSw(rs1, VAR_A, s);
    var s2 := DoLa(TP, base, s1);
    RomKept(L, s, s2);
    var s3 := DoLbu(SP, VAR_A, 3, s2);
    var s4 := SlliRuns(SP, SP, 2, s3);
    FourTimes(x);
    RomWord(L, base + 4 * x, y, s2);
    SmallSum(base, 4 * x);
    var s5 := Step(Machine.Add(TP, TP, SP), s4);
    StepTyped(Machine.Add(TP, TP, SP), s4);
    t := Step(Lw(SP, 0, TP), s5);
    StepTyped(Lw(SP, 0, TP), s5);
    Run1(SwSlot(rs1, VAR_A), s);
    Run1(LbuSlot(SP, VAR_A, 3), s2);
    var last := [Machine.Add(TP, TP, SP), Lw(SP, 0, TP)];
    Run2(Machine.Add(TP, TP, SP), Lw(SP, 0, TP), s4);
    RunTwice([LbuSlot(SP, VAR_A, 3)], SlliCode(SP, SP, 2), last, s2);
    RunTwice([SwSlot(rs1, VAR_A)], La(TP, base), [LbuSlot(SP, VAR_A, 3)] + (SlliCode(SP, SP, 2) + last), s);
    QuietEnd(L, s, s2, t);
    Settle24(s.regs, SP, base, x, s5.regs[TP], y);
  }

  lemma SmallSum(x: int, y: int)
    requires 0 <= x + y < W
    ensures (x + y) % W == x + y
  {
  }

  lemma FourTimes(x: int)
    requires 0 <= x < 256
    ensures (x * Pow2(2)) % W == 4 * x
  {
    assert Pow2(2) == 4;
  }

  lemma Settle24(regs: seq<int>, rd: Reg, a: int, x: int, b: int, y: int)
    requires |regs| == 32 && rd != TP
    ensures (var r := SetReg(SetReg(SetReg(SetReg(SetReg(regs, TP, a), rd, x), rd, 4 * x), TP, b), rd, y);
             |r| == 32 && r == SetReg(regs[GP := r[GP]][TP := r[TP]], rd, y))
  {
  }
}
