/** Conditional branches: the condition into tp, then a two-entry table on the stack (inst-replace.h:277-382). */
module MacroBranch {
  import opened Bits
  import opened Machine
  import opened Scratch
  import opened MiniRv
  import opened Tables
  import opened MacroBasics
  import opened MacroCompare
  import opened MacroEqual
  import opened Effects
  import opened MacroShift
  import opened MacroShiftRight

  /** RISC-V Unprivileged ISA, section 2.5. */
  predicate Taken(c: Cond, a: int, b: int) {
    match c
    case EQ => a == b
    case NE => a != b
    case LT => Signed32(a) < Signed32(b)
    case GE => Signed32(a) >= Signed32(b)
    case LTU => a < b
    case GEU => a >= b
  }

  /** tp is the truth of b; gp and the scratch bytes are lost. */
  ghost predicate Tested(L: Layout, b: bool, s: State, t: State) {
    Room(t) && Effect(L, TP, Bit(b), s, t)
  }

  lemma TestedBy(L: Layout, b: bool, s: State, t: State)
    requires Room(s) && Room(t) && Rest(t) == Rest(s) && t.regs == s.regs[GP := t.regs[GP]][TP := Bit(b)]
    ensures Tested(L, b, s, t)
  {
    QuietRest(L, s, t);
  }

  lemma SignsOf(v: int)
    requires 0 <= v < W
    ensures 0 <= SignBit(v) + SignBit((v - 1) % W) <= 2
    ensures SignBit(v) + SignBit((v - 1) % W) == 0 <==> Signed32(v) > 0
    ensures (Signed32(v) < 0) == (SignBit(v) == 1)
  {
  }

  lemma OrEntry(L: Layout, g: int)
    requires LayoutOK(L) && 0 <= g <= 2
    ensures ByteAt(L.rom, L.or1 + g, Bit(g != 0)) && 0 <= L.or1 + g < W && 0 <= L.or1 < W
  {
    var T := [0, 1, 1, 1];
    assert ByteAt(L.rom, L.or1 + g, T[g]) && ByteAt(L.rom, L.or1 + 0, T[0]);
    assert RomAddress(L, L.or1 + g) && RomAddress(L, L.or1 + 0);
  }

  /** inst-replace.h:338-344, 363-370: tp = (the operand is not positive). */
  lemma NotPositiveRuns(L: Layout, r: Reg, s: State) returns (t: State)
    requires LayoutOK(L) && RomOK(L, s) && r != GP && r != TP
    ensures t == Run(NotPositive(L, r), s) && Tested(L, Signed32(s.regs[r]) <= 0, s, t)
  {
    hide LayoutOK, RomOK, Slots, Rest, Run, Step, LoadWord, WellTyped, Msb, La, ByteAt, SignBit, Signed32, Tested;
    RoomOf(L, s);
    var v := s.regs[r];
    var g := SignBit(v) + SignBit((v - 1) % W);
    SignsOf(v);
    OrEntry(L, g);
    var s1, w1 := MsbRuns(GP, r, s);
    var s2 := DoAddi(TP, r, -1, s1);
    var s3, w3 := MsbRuns(TP, TP, s2);
    var s4 := DoAdd(GP, GP, TP, s3);
    var s5 := DoLa(TP, L.or1, s4);
    var s6 := DoAdd(TP, GP, TP, s5);
    RomKept(L, s, s6);
    t := GetRomByte(L, TP, TP, Bit(g != 0), s6);
    Run1(Addi(TP, r, -1), s1);
    Run1(Machine.Add(GP, GP, TP), s3);
    Run2(Machine.Add(TP, GP, TP), Lbu(TP, 0, TP), s5);
    var last := [Machine.Add(TP, GP, TP), Lbu(TP, 0, TP)];
    RunTwice([Machine.Add(GP, GP, TP)], La(TP, L.or1), last, s3);
    RunTwice([Addi(TP, r, -1)], Msb(TP, TP), [Machine.Add(GP, GP, TP)] + (La(TP, L.or1) + last), s1);
    RunAppend(Msb(GP, r), [Addi(TP, r, -1)] + (Msb(TP, TP) + ([Machine.Add(GP, GP, TP)] + (La(TP, L.or1) + last))), s);
    TestedBy(L, Signed32(v) <= 0, s, t);
  }

  lemma MsbTest(L: Layout, r: Reg, s: State) returns (t: State)
    requires RomOK(L, s)
    ensures t == Run(Msb(TP, r), s) && Tested(L, Signed32(s.regs[r]) < 0, s, t)
  {
    hide RomOK, Slots, Rest, Run, Step, LoadWord, WellTyped, Msb, SignBit, Signed32, Tested;
    RoomOf(L, s);
    SignsOf(s.regs[r]);
    var w;
    t, w := MsbRuns(TP, r, s);
    SignBits(s.regs[r]);
    TestedBy(L, Signed32(s.regs[r]) < 0, s, t);
  }

  /** slt and sltu as conditions. */
  lemma LessTest(L: Layout, signed: bool, rs1: Reg, rs2: Reg, s: State) returns (t: State)
    requires LayoutOK(L) && RomOK(L, s)
    ensures t == Run(SltCode(L, if signed then L.slt1 else L.sltu1, TP, rs1, rs2), s)
    ensures Tested(L, if signed then Signed32(s.regs[rs1]) < Signed32(s.regs[rs2]) else s.regs[rs1] < s.regs[rs2], s, t)
  {
    hide RomOK, Slots, Rest, Run, Step, LoadWord, WellTyped, SltCode, Signed32, Tested, SignIndex, BytesAt;
    RoomOf(L, s);
    SignsDecide(s.regs[rs1], s.regs[rs2]);
    t := SltRuns(L, if signed then L.slt1 else L.sltu1, if signed then SLT_TABLE else SLTU_TABLE, TP, rs1, rs2, s);
    TestedBy(L, if signed then Signed32(s.regs[rs1]) < Signed32(s.regs[rs2]) else s.regs[rs1] < s.regs[rs2], s, t);
  }

  /** seq, or seqz when an operand is x0. */
  lemma EqualTest(L: Layout, rs1: Reg, rs2: Reg, s: State) returns (t: State)
    requires LayoutOK(L) && RomOK(L, s) && CheckApart(L, s)
    ensures t == Run(EqualCode(L, rs1, rs2), s) && Tested(L, s.regs[rs1] == s.regs[rs2], s, t)
  {
    hide LayoutOK, RomOK, Slots, Rest, Run, Step, LoadWord, WellTyped, SeqzCode, SeqCode, CheckApart;
    RoomOf(L, s);
    var g;
    if rs2 == ZERO {
      t, g := SeqzRuns(L, TP, rs1, s);
      QuietRest(L, s, t);
    } else if rs1 == ZERO {
      t, g := SeqzRuns(L, TP, rs2, s);
      QuietRest(L, s, t);
    } else {
      t, g := SeqRuns(L, TP, rs1, rs2, s);
    }
  }

  /** Every form of every branch computes its condition, or the negation where the macro says so. */
  lemma BranchTestRuns(L: Layout, c: Cond, rs1: Reg, rs2: Reg, s: State) returns (t: State)
    requires LayoutOK(L) && RomOK(L, s) && CheckApart(L, s) && rs1 != GP && rs1 != TP && rs2 != GP && rs2 != TP
    ensures t == Run(BranchTest(L, c, rs1, rs2).code, s)
    ensures Tested(L, Taken(c, s.regs[rs1], s.regs[rs2]) == BranchTest(L, c, rs1, rs2).oneIsTaken, s, t)
  {
    hide LayoutOK, RomOK, Slots, Rest, Run, Step, LoadWord, WellTyped, Msb, EqualCode, SltCode, NotPositive, Tested,
         CheckApart, Effect;
    RoomOf(L, s);
    match c {
      case EQ => t := EqualTest(L, rs1, rs2, s);
      case NE => t := EqualTest(L, rs1, rs2, s);
      case LT =>
        if rs2 == ZERO { t := MsbTest(L, rs1, s); }
        else if rs1 == ZERO { t := NotPositiveRuns(L, rs2, s); }
        else { t := LessTest(L, true, rs1, rs2, s); }
      case GE =>
        if rs1 == ZERO { t := NotPositiveRuns(L, rs2, s); }
        else { t := LessTest(L, true, rs1, rs2, s); }
      case LTU => t := LessTest(L, false, rs1, rs2, s);
      case GEU => t := LessTest(L, false, rs1, rs2, s);
    }
  }

  /** inst-replace.h:277-292: tp picks one of two addresses laid out in slots A and B. */
  lemma ResolveRuns(L: Layout, oneIsTaken: bool, target: int, next: int, x: bool, s: State) returns (t: State)
    requires Room(s) && s.regs[TP] == Bit(x) && 0 <= target < W && 0 <= next < W
    ensures t == Run(Resolve(oneIsTaken, target, next), s) && Room(t) && Rest(t) == Rest(s)
    ensures t.regs == s.regs[GP := t.regs[GP]][TP := if x == oneIsTaken then target else next]
  {
    hide Slots, Rest, Run, Step, LoadWord, WellTyped, La, SlliCode, Split, Join;
    RoomRegs(s);
    var hi, lo := if oneIsTaken then target else next, if oneIsTaken then next else target;
    JoinSplit(hi);
    JoinSplit(lo);
    var s1 := SlliTwo(TP, s, Bit(x));
    var s2 := DoAdd(TP, SP, TP, s1);
    var s3 := DoLa(GP, hi, s2);
    var s4 := DoSw(GP, VAR_A, s3);
    var s5 := DoLa(GP, lo, s4);
    var s6 := DoSw(GP, VAR_B, s5);
    t := LoadChosen(if x then VAR_A else VAR_B, s6);
    ResolveShape(oneIsTaken, target, next, hi, lo, s);
    Run1(Machine.Add(TP, SP, TP), s1);
    Run1(SwSlot(GP, VAR_A), s3);
    Run2(SwSlot(GP, VAR_B), Lw(TP, -VAR_B * 4, TP), s5);
  }

  lemma LoadChosen(n: Slot, s: State) returns (t: State)
    requires Room(s) && (n == VAR_A || n == VAR_B) && s.regs[TP] == (s.regs[SP] + if n == VAR_A then 4 else 0) % W
    ensures t == Step(Lw(TP, -VAR_B * 4, TP), s) && Room(t) && IsWord(Slots(s)[n])
    ensures Apart(t) == Apart(s).(regs := s.regs[TP := Join(Slots(s)[n])])
  {
    hide Slots, Rest, LoadWord, WellTyped, Join, Addr;
    RoomRegs(s);
    SlotAddress(s.regs[SP], n);
    t := GetLw(TP, n, s);
  }

  lemma SlotAddress(sp: int, n: Slot)
    requires n == VAR_A || n == VAR_B
    ensures Addr((sp + if n == VAR_A then 4 else 0) % W, -VAR_B * 4) == Addr(sp, -4 * n)
  {
  }

  lemma ResolveShape(oneIsTaken: bool, target: int, next: int, hi: int, lo: int, s: State)
    requires WellTyped(s)
    requires hi == (if oneIsTaken then target else next) && lo == if oneIsTaken then next else target
    ensures (var s5 := Run(La(GP, lo),
                           Run([SwSlot(GP, VAR_A)],
                               Run(La(GP, hi), Run([Machine.Add(TP, SP, TP)], Run(SlliCode(TP, TP, 2), s)))));
             Run(Resolve(oneIsTaken, target, next), s) == Run([SwSlot(GP, VAR_B), Lw(TP, -VAR_B * 4, TP)], s5))
  {
    hide Run, La, SlliCode;
    var a, b, c, d, e, f := SlliCode(TP, TP, 2), [Machine.Add(TP, SP, TP)], La(GP, hi), [SwSlot(GP, VAR_A)], La(GP, lo),
        [SwSlot(GP, VAR_B), Lw(TP, -VAR_B * 4, TP)];
    assert Resolve(oneIsTaken, target, next) == a + (b + (c + (d + (e + f))));
    RunTwice(a, b, c + (d + (e + f)), s);
    RunTwice(c, d, e + f, Run(b, Run(a, s)));
    RunAppend(e, f, Run(d, Run(c, Run(b, Run(a, s)))));
  }
}
