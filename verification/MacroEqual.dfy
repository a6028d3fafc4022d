/** Equality by table: seqz (inst-replace.h:249-273) and seq (213-247). */
module MacroEqual {
  import opened Bits
  import opened Machine
  import opened Scratch
  import opened MiniRv
  import opened Tables
  import opened Effects

  /** The number of bytes that are not zero. */
  function NonZeroBytes(w: Word): int {
    (if w.b0 == 0 then 0 else 1) + (if w.b1 == 0 then 0 else 1) + (if w.b2 == 0 then 0 else 1)
        + (if w.b3 == 0 then 0 else 1)
  }

  lemma ZeroWhenNoBytes(v: int)
    requires 0 <= v < W
    ensures 0 <= NonZeroBytes(Split(v)) <= 4 && (NonZeroBytes(Split(v)) == 0 <==> v == 0)
  {
    hide Split;
    JoinSplit(v);
    BytesZero(Split(v));
  }

  lemma BytesZero(w: Word)
    requires IsWord(w)
    ensures NonZeroBytes(w) == 0 <==> Join(w) == 0
  {
  }

  lemma SameEntry(L: Layout, g: int)
    requires LayoutOK(L) && 0 <= g <= 4
    ensures ByteAt(L.rom, L.same + g, if g == 0 then 1 else 0) && 0 <= L.same + g < W && 0 <= L.same < W
  {
    var T := [1, 0, 0, 0, 0, 0, 0, 0];
    assert ByteAt(L.rom, L.same + g, T[g]) && ByteAt(L.rom, L.same + 0, T[0]);
    assert RomAddress(L, L.same + g) && RomAddress(L, L.same + 0);
  }

  function Bit(b: bool): int {
    if b then 1 else 0
  }

  lemma ZeroLookup(L: Layout, b: int)
    requires LayoutOK(L) && 0 <= b < 256
    ensures ByteAt(L.rom, L.zero8 + b, Bit(b != 0)) && 0 <= L.zero8 + b < W && 0 <= L.zero8 < W
  {
    assert ZeroEntry(L, b) && ZeroEntry(L, 0);
    assert RomAddress(L, L.zero8 + b) && RomAddress(L, L.zero8 + 0);
  }

  /** rd = (byte k of A is not zero). */
  lemma CheckZeroRuns(L: Layout, rd: Reg, k: ByteNo, s: State) returns (t: State)
    requires LayoutOK(L) && RomOK(L, s) && s.regs[S0] == L.zero8 && rd != SP && rd != S0 && rd != ZERO
    requires IsWord(Slots(s)[VAR_A])
    ensures t == Run(CheckZero(S0, rd, k), s) && RomOK(L, t)
    ensures Apart(t) == Apart(s).(regs := s.regs[rd := Bit(Byte(Slots(s)[VAR_A], k) != 0)])
  {
    hide LayoutOK, RomOK, Slots, Rest, Run, Step, LoadWord, WellTyped, ByteAt;
    RoomOf(L, s);
    var b := Byte(Slots(s)[VAR_A], k);
    ZeroLookup(L, b);
    var s1 := GetLbu(rd, VAR_A, k, s);
    var s2 := DoAdd(rd, S0, rd, s1);
    RomKept(L, s, s2);
    t := GetRomByte(L, rd, rd, Bit(b != 0), s2);
    Run3(LbuSlot(rd, VAR_A, k), Machine.Add(rd, S0, rd), Lbu(rd, 0, rd), s);
    RomKept(L, s, t);
    assert t.regs == s.regs[rd := Bit(b != 0)];
  }

  /** One more byte counted into gp. */
  lemma CountByte(L: Layout, k: ByteNo, s: State, g: int) returns (t: State)
    requires LayoutOK(L) && RomOK(L, s) && s.regs[S0] == L.zero8 && IsWord(Slots(s)[VAR_A]) && s.regs[GP] == g
    requires 0 <= g < 4
    ensures t == Run(CheckZero(S0, TP, k) + [Machine.Add(GP, GP, TP)], s) && RomOK(L, t)
    ensures var b := Bit(Byte(Slots(s)[VAR_A], k) != 0);
            Apart(t) == Apart(s).(regs := s.regs[TP := b][GP := g + b])
  {
    hide LayoutOK, RomOK, Slots, Rest, Run, Step, LoadWord, WellTyped, CheckZero;
    RoomOf(L, s);
    var s1 := CheckZeroRuns(L, TP, k, s);
    RoomOf(L, s1);
    t := DoAdd(GP, GP, TP, s1);
    Run1(Machine.Add(GP, GP, TP), s1);
    RunAppend(CheckZero(S0, TP, k), [Machine.Add(GP, GP, TP)], s);
    RomKept(L, s, t);
  }

  /** inst-replace.h:260-266 */
  function CountCode(): seq<Base> {
    var i := [Machine.Add(GP, GP, TP)];
    CheckZero(S0, GP, 0) + ((CheckZero(S0, TP, 1) + i) + ((CheckZero(S0, TP, 2) + i) + (CheckZero(S0, TP, 3) + i)))
  }

  /** gp counts the nonzero bytes of A. */
  lemma CountAll(L: Layout, w: Word, s: State) returns (t: State, z: int)
    requires LayoutOK(L) && RomOK(L, s) && s.regs[S0] == L.zero8 && Slots(s)[VAR_A] == w && IsWord(w)
    ensures t == Run(CountCode(), s)
    ensures RomOK(L, t) && Apart(t) == Apart(s).(regs := s.regs[TP := z][GP := NonZeroBytes(w)])
  {
    hide LayoutOK, RomOK, Slots, Rest, Run, Step, LoadWord, WellTyped, CheckZero;
    var s1 := CheckZeroRuns(L, GP, 0, s);
    var s2 := CountByte(L, 1, s1, Bit(w.b0 != 0));
    var s3 := CountByte(L, 2, s2, s2.regs[GP]);
    t := CountByte(L, 3, s3, s3.regs[GP]);
    var b, c, d := CheckZero(S0, TP, 1) + [Machine.Add(GP, GP, TP)], CheckZero(S0, TP, 2) + [Machine.Add(GP, GP, TP)],
        CheckZero(S0, TP, 3) + [Machine.Add(GP, GP, TP)];
    RoomOf(L, s1);
    RoomOf(L, s2);
    RoomOf(L, s);
    RunAppend(c, d, s2);
    RunAppend(b, c + d, s1);
    RunAppend(CheckZero(S0, GP, 0), b + (c + d), s);
    z := t.regs[TP];
    assert t.regs == s.regs[TP := z][GP := NonZeroBytes(w)];
  }

  /** inst-replace.h:255-268, up to the sum in tp; what remains is to read the answer and to restore s0. */
  lemma SeqzFront(L: Layout, rd: Reg, rs1: Reg, s: State) returns (u: State, g: int, z: int)
    requires LayoutOK(L) && RomOK(L, s)
    ensures RomOK(L, u) && Rest(u) == Rest(s) && Slots(u)[1] == Split(s.regs[S0])
    ensures ByteAt(L.rom, L.same + g, Bit(s.regs[rs1] == 0))
    ensures u.regs == SetReg(SetReg(SetReg(s.regs, S0, L.zero8)[TP := z][GP := g], TP, L.same), TP, L.same + g)
    ensures WellTyped(Step(Lbu(rd, 0, TP), u))
    ensures Run(SeqzCode(L, rd, rs1), s) == Step(LwSlot(S0, 1), Step(Lbu(rd, 0, TP), u))
  {
    hide LayoutOK, RomOK, Slots, Rest, Run, Step, LoadWord, WellTyped, CheckZero, Split, Join, La, ByteAt, NonZeroBytes;
    RoomOf(L, s);
    var w := Split(s.regs[rs1]);
    JoinSplit(s.regs[rs1]);
    JoinSplit(s.regs[S0]);
    ZeroWhenNoBytes(s.regs[rs1]);
    ZeroLookup(L, 0);
    g := NonZeroBytes(w);
    SameEntry(L, g);
    var s1 := DoSw(rs1, VAR_A, s);
    var s2 := DoSw(S0, 1, s1);
    Run2(SwSlot(rs1, VAR_A), SwSlot(S0, 1), s);
    var s3 := DoLa(S0, L.zero8, s2);
    RomKept(L, s, s3);
    var s4;
    s4, z := CountAll(L, w, s3);
    RoomOf(L, s4);
    var s5 := DoLa(TP, L.same, s4);
    u := DoAdd(TP, TP, GP, s5);
    RomKept(L, s, u);
    StepTyped(Lbu(rd, 0, TP), u);
    Run3(Machine.Add(TP, TP, GP), Lbu(rd, 0, TP), LwSlot(S0, 1), s5);
    SeqzShape(L, rd, rs1, s);
  }

  /** inst-replace.h:255-273. Into s0 the result is lost: s0 is restored afterwards. */
  lemma SeqzRuns(L: Layout, rd: Reg, rs1: Reg, s: State) returns (t: State, g: int)
    requires LayoutOK(L) && RomOK(L, s) && rd != SP
    ensures t == Run(SeqzCode(L, rd, rs1), s) && Room(t) && Rest(t) == Rest(s)
    ensures var regs := s.regs[GP := g][TP := L.same + g];
            t.regs == if rd == S0 then regs else SetReg(regs, rd, Bit(s.regs[rs1] == 0))
  {
    hide LayoutOK, RomOK, Slots, Rest, Run, Step, LoadWord, WellTyped, SeqzCode, Split, Join, ByteAt;
    RoomOf(L, s);
    JoinSplit(s.regs[S0]);
    var u, z;
    u, g, z := SeqzFront(L, rd, rs1, s);
    var v := GetRomByte(L, rd, TP, Bit(s.regs[rs1] == 0), u);
    t := GetLw(S0, 1, v);
    SeqzSettle(s.regs, rd, L.zero8, z, g, L.same, Bit(s.regs[rs1] == 0));
  }

  /** Into sp the answer arrives, but s0 is then restored from below the new sp. */
  lemma SeqzIntoSp(L: Layout, rs1: Reg, s: State) returns (t: State, g: int)
    requires LayoutOK(L) && RomOK(L, s)
    ensures t == Run(SeqzCode(L, SP, rs1), s) && WellTyped(t) && Quiet(L, s, t)
    ensures (var answer := Bit(s.regs[rs1] == 0);
             t.regs == s.regs[GP := g][TP := L.same + g][SP := answer][S0 := Join(LoadWord(t.mem, Addr(answer, -4)))])
  {
    hide LayoutOK, RomOK, Slots, Rest, Run, LoadWord, WellTyped, SeqzCode, Split, Join, ByteAt, Quiet, Addr;
    RoomOf(L, s);
    var u, z;
    u, g, z := SeqzFront(L, SP, rs1, s);
    var v := DoRomByte(L, SP, TP, Bit(s.regs[rs1] == 0), u);
    t := Step(LwSlot(S0, 1), v);
    StepTyped(LwSlot(S0, 1), v);
    RoomOf(L, u);
    QuietEnd(L, s, u, t);
  }

  lemma SeqzShape(L: Layout, rd: Reg, rs1: Reg, s: State)
    requires WellTyped(s)
    ensures Run(SeqzCode(L, rd, rs1), s)
         == Run([Machine.Add(TP, TP, GP), Lbu(rd, 0, TP), LwSlot(S0, 1)],
                Run(La(TP, L.same), Run(CountCode(),
                                        Run(La(S0, L.zero8), Run([SwSlot(rs1, VAR_A), SwSlot(S0, 1)], s)))))
  {
    var a, b := [SwSlot(rs1, VAR_A), SwSlot(S0, 1)], La(S0, L.zero8);
    var c0, c1, c2, c3 := CheckZero(S0, GP, 0), CheckZero(S0, TP, 1), CheckZero(S0, TP, 2), CheckZero(S0, TP, 3);
    var i := [Machine.Add(GP, GP, TP)];
    var e, f := La(TP, L.same), [Machine.Add(TP, TP, GP), Lbu(rd, 0, TP), LwSlot(S0, 1)];
    hide CheckZero, Run, La;
    var count := CountCode();
    assert SeqzCode(L, rd, rs1) == a + (b + (count + (e + f)));
    RunAppend(a, b + (count + (e + f)), s);
    RunAppend(b, count + (e + f), Run(a, s));
    RunAppend(count, e + f, Run(b, Run(a, s)));
    RunAppend(e, f, Run(count, Run(b, Run(a, s))));
  }

  lemma SeqzSettle(regs: seq<int>, rd: Reg, zero8: int, z: int, g: int, same: int, v: int)
    requires |regs| == 32 && rd != SP
    ensures SetReg(SetReg(SetReg(SetReg(SetReg(regs, S0, zero8)[TP := z][GP := g], TP, same), TP, same + g), rd, v),
                   S0, regs[S0])
         == (if rd == S0 then regs[GP := g][TP := same + g] else SetReg(regs[GP := g][TP := same + g], rd, v))
  {
  }

  // ---------------------------------------------------------------- seq

  /** The compare array is in memory and not among the scratch bytes. */
  ghost predicate CheckApart(L: Layout, s: State) {
    Room(s) && 0 <= L.check && L.check + 256 <= W && (L.check + 256 <= s.regs[SP] - 28 || s.regs[SP] <= L.check)
  }

  /** sb into the compare array. */
  lemma DoSbCheck(L: Layout, rs: Reg, ra: Reg, x: int, s: State) returns (t: State)
    requires LayoutOK(L) && RomOK(L, s) && CheckApart(L, s) && 0 <= x < 256 && s.regs[ra] == L.check + x
    ensures t == Step(Sb(rs, 0, ra), s) && RomOK(L, t) && CheckApart(L, t) && Quiet(L, s, t)
    ensures t.regs == s.regs && Slots(t) == Slots(s) && t.mem == s.mem[L.check + x := s.regs[rs] % 256]
  {
    hide LayoutOK;
    t := Step(Sb(rs, 0, ra), s);
    StepTyped(Sb(rs, 0, ra), s);
    FarByte(s, t, L.check + x, s.regs[rs] % 256);
    CheckNotRom(L, x, s.regs[rs] % 256, s, t);
  }

  /** A byte stored outside the scratch bytes changes no slot. */
  lemma FarByte(s: State, t: State, a: int, v: int)
    requires Room(s) && WellTyped(t) && 0 <= a < W && !InScratch(s, a) && t == State(s.regs, s.mem[a := v])
    ensures Room(t) && Slots(t) == Slots(s)
  {
    hide LoadWord, Slots;
    SlotZero(s);
    forall n | 1 <= n <= 7
      ensures Slots(s)[n] == LoadWord(t.mem, t.regs[SP] - 4 * n)
    {
      LoadFar(s.mem, a, v, s.regs[SP] - 4 * n);
    }
    SlotsAre(t, Slots(s));
  }

  lemma LoadFar(m: seq<int>, a: int, v: int, b: int)
    requires |m| == W && 0 <= a < W && 0 <= b && b + 3 < W && (a < b || b + 4 <= a)
    ensures LoadWord(m[a := v], b) == LoadWord(m, b)
  {
    assert b % W == b && (b + 1) % W == b + 1 && (b + 2) % W == b + 2 && (b + 3) % W == b + 3;
  }

  lemma CheckNotRom(L: Layout, x: int, v: int, s: State, t: State)
    requires LayoutOK(L) && RomOK(L, s) && 0 <= x < 256 && Room(t) && t.regs == s.regs
    requires 0 <= L.check && L.check + 256 <= W && t.mem == s.mem[L.check + x := v]
    ensures RomOK(L, t)
  {
    forall a | a in L.rom
      ensures Holds(L, t, a)
    {
      assert Holds(L, s, a) && RomAddress(L, a);
    }
  }

  /** lbu from the compare array. */
  lemma DoLbuCheck(L: Layout, rd: Reg, ra: Reg, x: int, s: State) returns (t: State)
    requires RomOK(L, s) && CheckApart(L, s) && 0 <= x < 256 && s.regs[ra] == L.check + x && rd != SP
    ensures t == Step(Lbu(rd, 0, ra), s) && RomOK(L, t) && CheckApart(L, t) && Quiet(L, s, t)
    ensures Apart(t) == Apart(s).(regs := SetReg(s.regs, rd, s.mem[L.check + x]))
  {
    t := Step(Lbu(rd, 0, ra), s);
    StepTyped(Lbu(rd, 0, ra), s);
    RegOnly(s, t, rd, s.mem[L.check + x]);
    RomKept(L, s, t);
    QuietRest(L, s, t);
  }

  /** The state within seq: A and B hold the operands, s0 the compare array. */
  ghost predicate SeqState(L: Layout, a: Word, b: Word, s: State) {
    && RomOK(L, s) && CheckApart(L, s) && s.regs[S0] == L.check
    && Slots(s)[VAR_A] == a && Slots(s)[VAR_B] == b && IsWord(a) && IsWord(b)
  }

  /** t differs from s in registers gp, tp, s1 and in the compare array only. */
  ghost predicate SeqKept(L: Layout, s: State, t: State) {
    && Room(s) && Room(t) && Slots(t) == Slots(s) && Quiet(L, s, t)
    && forall r | 0 <= r < 32 && r != GP && r != TP && r != S1 :: t.regs[r] == s.regs[r]
  }

  /** The first store: the entry of A's byte becomes 1, and tp points at it. */
  lemma MarkFirst(L: Layout, rd: Reg, a: Word, b: Word, k: ByteNo, s: State) returns (t: State)
    requires LayoutOK(L) && SeqState(L, a, b, s) && (rd == GP || rd == S1)
    ensures t == Run([LbuSlot(rd, VAR_A, k), Machine.Add(TP, S0, rd), Addi(rd, ZERO, 1), Sb(rd, 0, TP)], s)
    ensures SeqState(L, a, b, t) && SeqKept(L, s, t) && (rd == S1 ==> t.regs[GP] == s.regs[GP])
    ensures t.regs[TP] == L.check + Byte(a, k) && t.mem[L.check + Byte(a, k)] == 1
  {
    hide LayoutOK, RomOK, Slots, Rest, Run, Step, LoadWord, WellTyped, Quiet;
    RoomOf(L, s);
    var x := Byte(a, k);
    var s1 := GetLbu(rd, VAR_A, k, s);
    var s2 := DoAdd(TP, S0, rd, s1);
    var s3 := DoAddi(rd, ZERO, 1, s2);
    RomKept(L, s, s3);
    QuietRest(L, s, s3);
    t := DoSbCheck(L, rd, TP, x, s3);
    QuietTrans(L, s, s3, t);
    Run4(LbuSlot(rd, VAR_A, k), Machine.Add(TP, S0, rd), Addi(rd, ZERO, 1), Sb(rd, 0, TP), s);
  }

  /** The second store clears the entry of B's byte; reading the first entry back tells whether they are the same. */
  lemma ClearSecond(L: Layout, rd: Reg, a: Word, b: Word, k: ByteNo, s: State) returns (t: State)
    requires LayoutOK(L) && SeqState(L, a, b, s) && (rd == GP || rd == S1)
    requires s.regs[TP] == L.check + Byte(a, k) && s.mem[L.check + Byte(a, k)] == 1
    ensures t == Run([LbuSlot(rd, VAR_B, k), Machine.Add(rd, S0, rd), Sb(ZERO, 0, rd), Lbu(rd, 0, TP)], s)
    ensures SeqState(L, a, b, t) && SeqKept(L, s, t) && (rd == S1 ==> t.regs[GP] == s.regs[GP])
    ensures t.regs[rd] == Bit(Byte(a, k) != Byte(b, k))
  {
    hide LayoutOK, RomOK, Slots, Rest, Run, Step, LoadWord, WellTyped, Quiet;
    RoomOf(L, s);
    var x, y := Byte(a, k), Byte(b, k);
    var s1 := GetLbu(rd, VAR_B, k, s);
    var s2 := DoAdd(rd, S0, rd, s1);
    RomKept(L, s, s2);
    QuietRest(L, s, s2);
    SameMem(L, s, s2);
    var s3 := DoSbCheck(L, ZERO, rd, y, s2);
    RoomOf(L, s3);
    t := DoLbuCheck(L, rd, TP, x, s3);
    Run4(LbuSlot(rd, VAR_B, k), Machine.Add(rd, S0, rd), Sb(ZERO, 0, rd), Lbu(rd, 0, TP), s);
    QuietTrans(L, s, s2, s3);
    QuietTrans(L, s, s3, t);
  }

  lemma SeqKeptTrans(L: Layout, s: State, t: State, u: State)
    requires SeqKept(L, s, t) && SeqKept(L, t, u)
    ensures SeqKept(L, s, u)
  {
    QuietTrans(L, s, t, u);
  }

  /** inst-replace.h:213-224: rd = 0 exactly when byte k of A and of B agree. */
  lemma CheckSameRuns(L: Layout, rd: Reg, a: Word, b: Word, k: ByteNo, s: State) returns (t: State)
    requires LayoutOK(L) && SeqState(L, a, b, s) && (rd == GP || rd == S1)
    ensures t == Run(CheckSame(S0, rd, k), s) && SeqState(L, a, b, t) && SeqKept(L, s, t)
    ensures t.regs[rd] == Bit(Byte(a, k) != Byte(b, k)) && (rd == S1 ==> t.regs[GP] == s.regs[GP])
  {
    hide LayoutOK, RomOK, Slots, Rest, Run, Step, LoadWord, WellTyped, SeqKept;
    RoomOf(L, s);
    var s1 := MarkFirst(L, rd, a, b, k, s);
    t := ClearSecond(L, rd, a, b, k, s1);
    RunAppend([LbuSlot(rd, VAR_A, k), Machine.Add(TP, S0, rd), Addi(rd, ZERO, 1), Sb(rd, 0, TP)],
              [LbuSlot(rd, VAR_B, k), Machine.Add(rd, S0, rd), Sb(ZERO, 0, rd), Lbu(rd, 0, TP)], s);
    SeqKeptTrans(L, s, s1, t);
  }

  lemma SameMem(L: Layout, s: State, t: State)
    requires CheckApart(L, s) && Room(t) && t.regs[SP] == s.regs[SP] && Rest(t) == Rest(s)
    ensures CheckApart(L, t) && forall a | L.check <= a < L.check + 256 :: t.mem[a] == s.mem[a]
  {
    forall a | L.check <= a < L.check + 256
      ensures t.mem[a] == s.mem[a]
    {
      RestDecides(s, t, a);
    }
  }

  /** The number of bytes in which two words differ. */
  function Differing(a: Word, b: Word): int {
    Bit(a.b0 != b.b0) + Bit(a.b1 != b.b1) + Bit(a.b2 != b.b2) + Bit(a.b3 != b.b3)
  }

  lemma NoneDiffers(u: int, v: int)
    requires 0 <= u < W && 0 <= v < W
    ensures 0 <= Differing(Split(u), Split(v)) <= 4 && (Differing(Split(u), Split(v)) == 0 <==> u == v)
  {
    hide Split;
    JoinSplit(u);
    JoinSplit(v);
  }

  /** One more byte compared, the outcome added to gp. */
  lemma CompareByte(L: Layout, a: Word, b: Word, k: ByteNo, s: State, g: int) returns (t: State)
    requires LayoutOK(L) && SeqState(L, a, b, s) && s.regs[GP] == g && 0 <= g < 4
    ensures t == Run(CheckSame(S0, S1, k) + [Machine.Add(GP, GP, S1)], s) && SeqState(L, a, b, t) && SeqKept(L, s, t)
    ensures t.regs[GP] == g + Bit(Byte(a, k) != Byte(b, k))
  {
    hide LayoutOK, RomOK, Slots, Rest, Run, Step, LoadWord, WellTyped, CheckSame, Quiet;
    RoomOf(L, s);
    var s1 := CheckSameRuns(L, S1, a, b, k, s);
    t := DoAdd(GP, GP, S1, s1);
    Run1(Machine.Add(GP, GP, S1), s1);
    RunAppend(CheckSame(S0, S1, k), [Machine.Add(GP, GP, S1)], s);
    RomKept(L, s1, t);
    SameMem(L, s1, t);
    QuietRest(L, s1, t);
    QuietTrans(L, s, s1, t);
  }

  /** inst-replace.h:233-239 */
  function CompareCode(): seq<Base> {
    var i := [Machine.Add(GP, GP, S1)];
    CheckSame(S0, GP, 0) + ((CheckSame(S0, S1, 1) + i) + ((CheckSame(S0, S1, 2) + i) + (CheckSame(S0, S1, 3) + i)))
  }

  lemma CompareAll(L: Layout, a: Word, b: Word, s: State) returns (t: State)
    requires LayoutOK(L) && SeqState(L, a, b, s)
    ensures t == Run(CompareCode(), s) && SeqState(L, a, b, t) && SeqKept(L, s, t)
    ensures t.regs[GP] == Differing(a, b)
  {
    hide LayoutOK, RomOK, Slots, Rest, Run, Step, LoadWord, WellTyped, CheckSame, SeqKept;
    var s1 := CheckSameRuns(L, GP, a, b, 0, s);
    var s2 := CompareByte(L, a, b, 1, s1, Bit(a.b0 != b.b0));
    RoomOf(L, s2);
    var s3 := CompareByte(L, a, b, 2, s2, s2.regs[GP]);
    RoomOf(L, s3);
    t := CompareByte(L, a, b, 3, s3, s3.regs[GP]);
    SeqKeptTrans(L, s, s1, s2);
    SeqKeptTrans(L, s, s2, s3);
    SeqKeptTrans(L, s, s3, t);
    var i := [Machine.Add(GP, GP, S1)];
    RoomOf(L, s1);
    RoomOf(L, s2);
    RoomOf(L, s);
    RunAppend(CheckSame(S0, S1, 2) + i, CheckSame(S0, S1, 3) + i, s2);
    RunAppend(CheckSame(S0, S1, 1) + i, (CheckSame(S0, S1, 2) + i) + (CheckSame(S0, S1, 3) + i), s1);
    RunAppend(CheckSame(S0, GP, 0),
              (CheckSame(S0, S1, 1) + i) + ((CheckSame(S0, S1, 2) + i) + (CheckSame(S0, S1, 3) + i)), s);
  }

  /** inst-replace.h:226-247. Into s0 or s1 the result is lost: both are restored afterwards. */
  lemma SeqRuns(L: Layout, rd: Reg, rs1: Reg, rs2: Reg, s: State) returns (t: State, g: int)
    requires LayoutOK(L) && RomOK(L, s) && CheckApart(L, s) && rd != SP
    ensures t == Run(SeqCode(L, rd, rs1, rs2), s) && Room(t) && Quiet(L, s, t)
    ensures (var regs := s.regs[GP := g][TP := L.same + g];
             t.regs == if rd == S0 || rd == S1 then regs else SetReg(regs, rd, Bit(s.regs[rs1] == s.regs[rs2])))
  {
    hide LayoutOK, RomOK, Slots, Rest, Run, Step, LoadWord, WellTyped, Split, Join, La, ByteAt, Differing, CompareCode,
         Quiet;
    RoomOf(L, s);
    var a, b := Split(s.regs[rs1]), Split(s.regs[rs2]);
    NoneDiffers(s.regs[rs1], s.regs[rs2]);
    g := Differing(a, b);
    SameEntry(L, g);
    var s2 := SeqEntry(L, rs1, rs2, s);
    var s3 := CompareAll(L, a, b, s2);
    QuietTrans(L, s, s2, s3);
    RoomOf(L, s3);
    t := SeqExit(L, rd, g, s3, Split(s.regs[S0]), Split(s.regs[S1]));
    QuietRest(L, s3, t);
    QuietTrans(L, s, s3, t);
    SeqShape(L, rd, rs1, rs2, s);
    JoinSplit(s.regs[S0]);
    JoinSplit(s.regs[S1]);
    SeqSettle(s.regs, s3.regs, rd, L.same, g, Bit(g == 0));
  }

  /** Into sp the answer arrives, but s1 and s0 are then restored from below the new sp. */
  lemma SeqIntoSp(L: Layout, rs1: Reg, rs2: Reg, s: State) returns (t: State, g: int)
    requires LayoutOK(L) && RomOK(L, s) && CheckApart(L, s)
    ensures t == Run(SeqCode(L, SP, rs1, rs2), s) && WellTyped(t) && Quiet(L, s, t)
    ensures (var answer := Bit(s.regs[rs1] == s.regs[rs2]);
             t.regs == s.regs[GP := g][TP := L.same + g][SP := answer]
                             [S1 := Join(LoadWord(t.mem, Addr(answer, -8)))]
                             [S0 := Join(LoadWord(t.mem, Addr(answer, -4)))])
  {
    hide LayoutOK, RomOK, Slots, Rest, Run, Step, LoadWord, WellTyped, Split, Join, La, ByteAt, Differing, CompareCode,
         Quiet;
    RoomOf(L, s);
    var a, b := Split(s.regs[rs1]), Split(s.regs[rs2]);
    NoneDiffers(s.regs[rs1], s.regs[rs2]);
    g := Differing(a, b);
    SameEntry(L, g);
    var s2 := SeqEntry(L, rs1, rs2, s);
    var s3 := CompareAll(L, a, b, s2);
    QuietTrans(L, s, s2, s3);
    RoomOf(L, s3);
    t := SeqExitSp(L, g, s3);
    QuietTrans(L, s, s3, t);
    SeqShape(L, SP, rs1, rs2, s);
    SeqSettleSp(s.regs, s3.regs, L.same, g, Bit(g == 0), Join(LoadWord(t.mem, Addr(Bit(g == 0), -8))),
                Join(LoadWord(t.mem, Addr(Bit(g == 0), -4))));
  }

  lemma SeqExitSp(L: Layout, g: int, s: State) returns (t: State)
    requires LayoutOK(L) && RomOK(L, s) && s.regs[GP] == g && 0 <= g <= 4
    ensures t == Run([Machine.Add(TP, TP, GP), Lbu(SP, 0, TP), LwSlot(S1, 2), LwSlot(S0, 1)], Run(La(TP, L.same), s))
    ensures WellTyped(t) && |t.mem| == W && Quiet(L, s, t)
    ensures (var answer := Bit(g == 0);
             t.regs == s.regs[TP := L.same + g][SP := answer]
                             [S1 := Join(LoadWord(t.mem, Addr(answer, -8)))]
                             [S0 := Join(LoadWord(t.mem, Addr(answer, -4)))])
  {
    hide LayoutOK, RomOK, Slots, Rest, Run, LoadWord, WellTyped, La, ByteAt, Join, Quiet, Addr;
    RoomOf(L, s);
    SameEntry(L, g);
    var s1 := DoLa(TP, L.same, s);
    var s2 := DoAdd(TP, TP, GP, s1);
    RomKept(L, s, s2);
    var s3 := DoRomByte(L, SP, TP, Bit(g == 0), s2);
    var s4 := Step(LwSlot(S1, 2), s3);
    StepTyped(LwSlot(S1, 2), s3);
    t := Step(LwSlot(S0, 1), s4);
    StepTyped(LwSlot(S0, 1), s4);
    Run4(Machine.Add(TP, TP, GP), Lbu(SP, 0, TP), LwSlot(S1, 2), LwSlot(S0, 1), s1);
    QuietEnd(L, s, s2, t);
  }

  lemma SeqSettleSp(regs: seq<int>, regs3: seq<int>, same: int, g: int, v: int, x: int, y: int)
    requires |regs| == |regs3| == 32 && regs3[GP] == g
    requires forall r | 0 <= r < 32 && r != GP && r != TP && r != S1 && r != S0 :: regs3[r] == regs[r]
    ensures regs3[TP := same + g][SP := v][S1 := x][S0 := y] == regs[GP := g][TP := same + g][SP := v][S1 := x][S0 := y]
  {
  }

  lemma SeqEntry(L: Layout, rs1: Reg, rs2: Reg, s: State) returns (t: State)
    requires LayoutOK(L) && RomOK(L, s) && CheckApart(L, s)
    ensures t == Run(La(S0, L.check), Run([SwSlot(rs1, VAR_A), SwSlot(rs2, VAR_B), SwSlot(S0, 1), SwSlot(S1, 2)], s))
    ensures SeqState(L, Split(s.regs[rs1]), Split(s.regs[rs2]), t) && Quiet(L, s, t)
    ensures t.regs == s.regs[S0 := L.check] && Slots(t)[1] == Split(s.regs[S0]) && Slots(t)[2] == Split(s.regs[S1])
  {
    hide LayoutOK, RomOK, Slots, Rest, Run, Step, LoadWord, WellTyped, Split, Join, La, Quiet;
    RoomOf(L, s);
    JoinSplit(s.regs[rs1]);
    JoinSplit(s.regs[rs2]);
    var s1 := DoSw(rs1, VAR_A, s);
    var s2 := DoSw(rs2, VAR_B, s1);
    var s3 := DoSw(S0, 1, s2);
    var s4 := DoSw(S1, 2, s3);
    Run4(SwSlot(rs1, VAR_A), SwSlot(rs2, VAR_B), SwSlot(S0, 1), SwSlot(S1, 2), s);
    t := DoLa(S0, L.check, s4);
    RomKept(L, s, t);
    SameMem(L, s, t);
    QuietRest(L, s, t);
  }

  lemma SeqExit(L: Layout, rd: Reg, g: int, s: State, w0: Word, w1: Word) returns (t: State)
    requires LayoutOK(L) && RomOK(L, s) && s.regs[GP] == g && 0 <= g <= 4 && rd != SP
    requires Slots(s)[1] == w0 && Slots(s)[2] == w1
    ensures t == Run([Machine.Add(TP, TP, GP), Lbu(rd, 0, TP), LwSlot(S1, 2), LwSlot(S0, 1)], Run(La(TP, L.same), s))
    ensures Room(t) && Rest(t) == Rest(s)
    ensures t.regs == SetReg(SetReg(SetReg(s.regs[TP := L.same + g], rd, Bit(g == 0)), S1, Join(w1)), S0, Join(w0))
  {
    hide LayoutOK, RomOK, Slots, Rest, Run, Step, LoadWord, WellTyped, La, ByteAt, Join;
    RoomOf(L, s);
    SameEntry(L, g);
    var s1 := DoLa(TP, L.same, s);
    var s2 := DoAdd(TP, TP, GP, s1);
    RomKept(L, s, s2);
    var s3 := GetRomByte(L, rd, TP, Bit(g == 0), s2);
    var s4 := GetLw(S1, 2, s3);
    t := GetLw(S0, 1, s4);
    Run4(Machine.Add(TP, TP, GP), Lbu(rd, 0, TP), LwSlot(S1, 2), LwSlot(S0, 1), s1);
    assert s2.regs == s.regs[TP := L.same + g];
  }

  lemma SeqShape(L: Layout, rd: Reg, rs1: Reg, rs2: Reg, s: State)
    requires WellTyped(s)
    ensures Run(SeqCode(L, rd, rs1, rs2), s)
         == Run([Machine.Add(TP, TP, GP), Lbu(rd, 0, TP), LwSlot(S1, 2), LwSlot(S0, 1)],
                Run(La(TP, L.same), Run(CompareCode(),
                Run(La(S0, L.check), Run([SwSlot(rs1, VAR_A), SwSlot(rs2, VAR_B), SwSlot(S0, 1), SwSlot(S1, 2)], s)))))
  {
    var a, b := [SwSlot(rs1, VAR_A), SwSlot(rs2, VAR_B), SwSlot(S0, 1), SwSlot(S1, 2)], La(S0, L.check);
    var c0, c1, c2, c3 := CheckSame(S0, GP, 0), CheckSame(S0, S1, 1), CheckSame(S0, S1, 2), CheckSame(S0, S1, 3);
    var i := [Machine.Add(GP, GP, S1)];
    var e, f := La(TP, L.same), [Machine.Add(TP, TP, GP), Lbu(rd, 0, TP), LwSlot(S1, 2), LwSlot(S0, 1)];
    hide CheckSame, Run, La;
    var count := CompareCode();
    assert SeqCode(L, rd, rs1, rs2) == a + (b + (count + (e + f)));
    RunAppend(a, b + (count + (e + f)), s);
    RunAppend(b, count + (e + f), Run(a, s));
    RunAppend(count, e + f, Run(b, Run(a, s)));
    RunAppend(e, f, Run(count, Run(b, Run(a, s))));
  }

  lemma SeqSettle(regs: seq<int>, regs3: seq<int>, rd: Reg, same: int, g: int, v: int)
    requires |regs| == |regs3| == 32 && rd != SP && regs3[GP] == g
    requires forall r | 0 <= r < 32 && r != GP && r != TP && r != S1 && r != S0 :: regs3[r] == regs[r]
    ensures SetReg(SetReg(SetReg(regs3[TP := same + g], rd, v), S1, regs[S1]), S0, regs[S0])
         == if rd == S0 || rd == S1 then regs[GP := g][TP := same + g] else SetReg(regs[GP := g][TP := same + g], rd, v)
  {
  }
}
