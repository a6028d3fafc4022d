/** Signed and unsigned comparison by sign table (inst-replace.h:49-63, 128-163). */
module MacroCompare {
  import opened Bits
  import opened Machine
  import opened Scratch
  import opened MiniRv
  import opened Tables
  import opened MacroBasics

  const SLT_TABLE := [0, 1, 0, 0, 1, 1, 0, 1]
  const SLTU_TABLE := [0, 1, 1, 1, 0, 0, 0, 1]

  function SignIndex(a: int, b: int): int {
    4 * SignBit(a) + 2 * SignBit(b) + SignBit((a - b) % W)
  }

  /** The signs of a, b and a - b decide both comparisons. */
  lemma SignsDecide(a: int, b: int)
    requires 0 <= a < W && 0 <= b < W
    ensures 0 <= SignIndex(a, b) < 8
    ensures SLT_TABLE[SignIndex(a, b)] == if Signed32(a) < Signed32(b) then 1 else 0
    ensures SLTU_TABLE[SignIndex(a, b)] == if a < b then 1 else 0
  {
    assert (a - b) % W == if a >= b then a - b else a - b + W;
  }

  lemma DoubledSmall(x: int)
    requires 0 <= x < 100
    ensures (x * Pow2(1)) % W == 2 * x
  {
    assert Pow2(1) == 2;
  }

  ghost predicate SlotsKept(s: seq<Word>, t: seq<Word>) {
    |s| == |t| == 8 && t[1] == s[1] && t[2] == s[2] && t[VAR_A] == s[VAR_A] && t[VAR_B] == s[VAR_B]
  }

  lemma SlliSmall(rd: Reg, s: State, x: int) returns (t: State)
    requires Room(s) && rd != SP && rd != ZERO && s.regs[rd] == x && 0 <= x < 100
    ensures t == Run(SlliCode(rd, rd, 1), s) && Room(t)
    ensures Apart(t) == Apart(s).(regs := SetReg(s.regs, rd, 2 * x))
  {
    t := SlliRuns(rd, rd, 1, s);
    DoubledSmall(x);
    RegOnly(s, t, rd, 2 * x);
  }

  lemma SettleOne(regs: seq<int>, a: int, b: int, c: int, d: int)
    requires |regs| == 32
    ensures SetReg(SetReg(SetReg(SetReg(regs, GP, a), GP, b), TP, c), GP, d) == regs[TP := c][GP := d]
  {
  }

  lemma SettleTwo(regs: seq<int>, a: int, b: int, c: int, d: int, e: int)
    requires |regs| == 32
    ensures SetReg(SetReg(SetReg(SetReg(SetReg(regs, GP, a), TP, b), TP, c), TP, d), GP, e) == regs[TP := d][GP := e]
  {
  }

  /** The sign of a in gp, doubled, plus the sign of b. */
  lemma TwoSigns(s: State) returns (t: State)
    requires Room(s)
    ensures t == Run(Msb(GP, S0) + (SlliCode(GP, GP, 1) + (Msb(TP, S1) + [Machine.Add(GP, GP, TP)])), s) && Room(t)
    ensures SlotsKept(Slots(s), Slots(t)) && Rest(t) == Rest(s)
    ensures t.regs == s.regs[TP := SignBit(s.regs[S1])][GP := 2 * SignBit(s.regs[S0]) + SignBit(s.regs[S1])]
  {
    hide Msb, SlliCode, SignBit, Slots, Rest, Run, Step, LoadWord, WellTyped;
    RoomRegs(s);
    SignBits(s.regs[S0]);
    SignBits(s.regs[S1]);
    var s1, w1 := MsbRuns(GP, S0, s);
    var s2 := SlliSmall(GP, s1, SignBit(s.regs[S0]));
    var s3, w3 := MsbRuns(TP, S1, s2);
    t := DoAdd(GP, GP, TP, s3);
    SettleOne(s.regs, SignBit(s.regs[S0]), 2 * SignBit(s.regs[S0]), SignBit(s.regs[S1]), t.regs[GP]);
    var i := Machine.Add(GP, GP, TP);
    Run1(i, s3);
    RunAppend(Msb(TP, S1), [i], s2);
    RunAppend(SlliCode(GP, GP, 1), Msb(TP, S1) + [i], s1);
    RunAppend(Msb(GP, S0), SlliCode(GP, GP, 1) + (Msb(TP, S1) + [i]), s);
  }

  lemma RoomRegs(s: State)
    requires Room(s)
    ensures |s.regs| == 32 && forall r | 0 <= r < 32 :: 0 <= s.regs[r] < W
  {
  }

  lemma SignBits(v: int)
    ensures 0 <= SignBit(v) <= 1
  {
  }

  /** Doubled again, plus the sign of the difference. */
  lemma DifferenceSign(L: Layout, s: State, x: int) returns (t: State, z: int)
    requires LayoutOK(L) && RomOK(L, s) && s.regs[GP] == x && 0 <= x <= 3
    ensures t == Run(SlliCode(GP, GP, 1) + (SubCode(L, TP, S0, S1) + (Msb(TP, TP) + [Machine.Add(GP, GP, TP)])), s)
    ensures RomOK(L, t) && SlotsKept(Slots(s), Slots(t)) && Rest(t) == Rest(s)
    ensures t.regs == s.regs[TP := z][GP := 2 * x + SignBit((s.regs[S0] - s.regs[S1]) % W)]
  {
    hide Msb, SlliCode, SubCode, SignBit, Slots, Rest, Run, Step, LayoutOK, RomOK, LoadWord, WellTyped;
    RoomOf(L, s);
    SignBits((s.regs[S0] - s.regs[S1]) % W);
    var s1 := SlliSmall(GP, s, x);
    RomKept(L, s, s1);
    var s2, slots := SubRuns(L, TP, S0, S1, s1);
    RoomOf(L, s2);
    var s3, w := MsbRuns(TP, TP, s2);
    t := DoAdd(GP, GP, TP, s3);
    SettleTwo(s.regs, 2 * x, s2.regs[TP], s2.regs[TP], s3.regs[TP], t.regs[GP]);
    var i := Machine.Add(GP, GP, TP);
    Run1(i, s3);
    RunAppend(Msb(TP, TP), [i], s2);
    RunAppend(SubCode(L, TP, S0, S1), Msb(TP, TP) + [i], s1);
    RunAppend(SlliCode(GP, GP, 1), SubCode(L, TP, S0, S1) + (Msb(TP, TP) + [i]), s);
    RomKept(L, s, t);
    z := t.regs[TP];
  }

  lemma SltIndexRuns(L: Layout, s: State) returns (t: State, z: int)
    requires LayoutOK(L) && RomOK(L, s)
    ensures t == Run(SltIndex(L), s) && RomOK(L, t) && SlotsKept(Slots(s), Slots(t)) && Rest(t) == Rest(s)
    ensures t.regs == s.regs[TP := z][GP := SignIndex(s.regs[S0], s.regs[S1])]
  {
    hide Msb, SlliCode, SubCode, SignBit, Slots, Rest, Run, Step, LayoutOK, RomOK, LoadWord, WellTyped;
    RoomOf(L, s);
    SignBits(s.regs[S0]);
    SignBits(s.regs[S1]);
    var s1 := TwoSigns(s);
    RomKept(L, s, s1);
    t, z := DifferenceSign(L, s1, 2 * SignBit(s.regs[S0]) + SignBit(s.regs[S1]));
    var i := [Machine.Add(GP, GP, TP)];
    var a := Msb(GP, S0) + (SlliCode(GP, GP, 1) + (Msb(TP, S1) + i));
    var b := SlliCode(GP, GP, 1) + (SubCode(L, TP, S0, S1) + (Msb(TP, TP) + i));
    RunAppend(a, b, s);
    assert SltIndex(L) == a + b;
  }

  /** inst-replace.h:128-153: rd = table[sign index]; s0 and s1 come back, tp and gp are lost. */
  lemma SltRuns(L: Layout, table: int, T: seq<int>, rd: Reg, rs1: Reg, rs2: Reg, s: State) returns (t: State)
    requires LayoutOK(L) && RomOK(L, s) && |T| == 8 && BytesAt(L.rom, table, T)
    ensures t == Run(SltCode(L, table, rd, rs1, rs2), s) && WellTyped(t)
    ensures var x := SignIndex(s.regs[rs1], s.regs[rs2]);
            0 <= x < 8 && t.regs == SetReg(s.regs[GP := x][TP := table + x], rd, T[x])
    ensures rd != SP ==> Room(t) && Rest(t) == Rest(s)
    ensures forall a | 0 <= a < W && !(s.regs[SP] - 28 <= a < s.regs[SP]) :: t.mem[a] == s.mem[a]
  {
    hide SltIndex, SignIndex, Slots, Rest, Run, Step, LayoutOK, RomOK, La, Split, Join, BytesAt, LoadWord;
    RoomOf(L, s);
    JoinSplit(s.regs[rs2]);
    JoinSplit(s.regs[S0]);
    JoinSplit(s.regs[S1]);
    var x := SignIndex(s.regs[rs1], s.regs[rs2]);
    SignsDecide(s.regs[rs1], s.regs[rs2]);
    SltTableEntry(L, table, T, x);
    var s3, s5 := SltEntry(rs1, rs2, s);
    RomKept(L, s, s5);
    var s6, z := SltIndexRuns(L, s5);
    RoomOf(L, s6);
    var s7 := DoLa(TP, table, s6);
    var s8 := DoAdd(TP, TP, GP, s7);
    var s9 := GetLw(S1, 2, s8);
    var s10 := GetLw(S0, 1, s9);
    RomKept(L, s6, s10);
    t := DoRomByte(L, rd, TP, T[x], s10);
    SltExit(L, table, rd, s6);
    RunAppend(SltIndex(L), La(TP, table) + [Machine.Add(TP, TP, GP), LwSlot(S1, 2), LwSlot(S0, 1), Lbu(rd, 0, TP)], s5);
    RunAppend([SwSlot(S0, 1), SwSlot(S1, 2), SwSlot(rs2, VAR_A), Addi(S0, rs1, 0), LwSlot(S1, VAR_A)],
              SltIndex(L) + (La(TP, table) + [Machine.Add(TP, TP, GP), LwSlot(S1, 2), LwSlot(S0, 1), Lbu(rd, 0, TP)]),
                  s);
    assert s10.regs == s.regs[GP := x][TP := table + x];
    forall a | 0 <= a < W && !(s.regs[SP] - 28 <= a < s.regs[SP])
      ensures t.mem[a] == s.mem[a]
    {
      RestDecides(s, s10, a);
    }
    if rd != SP {
      RegOnly(s10, t, rd, T[x]);
    }
  }

  lemma SltTableEntry(L: Layout, table: int, T: seq<int>, x: int)
    requires LayoutOK(L) && |T| == 8 && BytesAt(L.rom, table, T) && 0 <= x < 8
    ensures ByteAt(L.rom, table + x, T[x]) && 0 <= table + x < W && 0 <= table < W
  {
    assert ByteAt(L.rom, table + 0, T[0]) && ByteAt(L.rom, table + x, T[x]);
    assert RomAddress(L, table + x) && RomAddress(L, table + 0);
  }

  lemma SltEntry(rs1: Reg, rs2: Reg, s: State) returns (s3: State, t: State)
    requires Room(s)
    ensures t == Run([SwSlot(S0, 1), SwSlot(S1, 2), SwSlot(rs2, VAR_A), Addi(S0, rs1, 0), LwSlot(S1, VAR_A)], s)
    ensures Room(t) && Rest(t) == Rest(s) && t.regs == s.regs[S0 := s.regs[rs1]][S1 := s.regs[rs2]]
    ensures Slots(t)[1] == Split(s.regs[S0]) && Slots(t)[2] == Split(s.regs[S1])
  {
    hide Slots, Rest, Run, Step, Split, Join, LoadWord;
    JoinSplit(s.regs[rs2]);
    var s1 := DoSw(S0, 1, s);
    var s2 := DoSw(S1, 2, s1);
    s3 := DoSw(rs2, VAR_A, s2);
    var s4 := DoAddi(S0, rs1, 0, s3);
    t := GetLw(S1, VAR_A, s4);
    Run5(SwSlot(S0, 1), SwSlot(S1, 2), SwSlot(rs2, VAR_A), Addi(S0, rs1, 0), LwSlot(S1, VAR_A), s);
    assert (s.regs[rs1] + 0) % W == s.regs[rs1];
  }

  lemma SltExit(L: Layout, table: int, rd: Reg, s: State)
    requires WellTyped(s) && 0 <= table < W
    ensures var a := Run(La(TP, table), s);
            var b := Step(Machine.Add(TP, TP, GP), a);
            WellTyped(b) && WellTyped(Step(LwSlot(S1, 2), b)) && WellTyped(Step(LwSlot(S0, 1), Step(LwSlot(S1, 2), b)))
            && Run(La(TP, table) + [Machine.Add(TP, TP, GP), LwSlot(S1, 2), LwSlot(S0, 1), Lbu(rd, 0, TP)], s)
            == Step(Lbu(rd, 0, TP), Step(LwSlot(S0, 1), Step(LwSlot(S1, 2), b)))
  {
    var a := Run(La(TP, table), s);
    Run4(Machine.Add(TP, TP, GP), LwSlot(S1, 2), LwSlot(S0, 1), Lbu(rd, 0, TP), a);
    RunAppend(La(TP, table), [Machine.Add(TP, TP, GP), LwSlot(S1, 2), LwSlot(S0, 1), Lbu(rd, 0, TP)], s);
  }
}
