/**
 * What the small macros do: byte selection, left shifts by a constant, most significant bit, complement, subtraction.
 */
module MacroBasics {
  import opened Bits
  import opened Machine
  import opened Scratch
  import opened MiniRv
  import opened Tables
  import opened Effects

  lemma GetByteRuns(rd: Reg, rs1: Reg, k: ByteNo, s: State) returns (t: State)
    requires Room(s)
    ensures t == Run(GetByte(rd, rs1, k), s) && WellTyped(t)
    ensures t.regs == SetReg(s.regs, rd, Byte(Split(s.regs[rs1]), k))
    ensures rd != SP ==>
              Room(t) && Apart(t) == Parts(t.regs, Slots(s)[VAR_C := Split(s.regs[rs1])], Rest(s))
  {
    hide Step, Split, Byte;
    var s1 := DoSw(rs1, VAR_C, s);
    t := DoLbu(rd, VAR_C, k, s1);
    Run2(SwSlot(rs1, VAR_C), LbuSlot(rd, VAR_C, k), s);
    if rd != SP {
      RegOnly(s1, t, rd, Byte(Split(s.regs[rs1]), k));
    }
  }

  lemma ModMul(x: int, p: int)
    ensures ((x % W) * p) % W == (x * p) % W
  {
    var q := x / W;
    assert x == q * W + x % W;
    assert x * p == (x % W) * p + (q * p) * W;
    ModAdd((x % W) * p, q * p);
  }

  lemma ModAdd(y: int, k: int)
    ensures (y + k * W) % W == y % W
  {
    var q := y / W;
    assert y + k * W == (q + k) * W + y % W;
  }

  lemma DoubleShift(v: int, n: nat)
    requires n > 0
    ensures (((v + v) % W) * Pow2(n - 1)) % W == (v * Pow2(n)) % W
  {
    ModMul(2 * v, Pow2(n - 1));
    assert (2 * v) * Pow2(n - 1) == v * Pow2(n);
  }

  lemma {:induction false} DoublesRun(rd: Reg, n: nat, s: State) returns (t: State)
    requires WellTyped(s)
    ensures t == Run(Doubles(rd, n), s) && WellTyped(t)
    ensures t == State(SetReg(s.regs, rd, (s.regs[rd] * Pow2(n)) % W), s.mem)
  {
    if n == 0 {
      t := s;
      assert s.regs[rd] * Pow2(0) == s.regs[rd];
    } else {
      hide Pow2;
      var i := Machine.Add(rd, rd, rd);
      var s1 := Step(i, s);
      Run1(i, s);
      t := DoublesRun(rd, n - 1, s1);
      RunAppend([i], Doubles(rd, n - 1), s);
      DoubleShift(s.regs[rd], n);
    }
  }

  /** Shifts by 1 to 15 are additions, and touch nothing but rd. */
  lemma SlliRuns(rd: Reg, rs1: Reg, imm: nat, s: State) returns (t: State)
    requires WellTyped(s) && 1 <= imm < 16
    ensures t == Run(SlliCode(rd, rs1, imm), s) && WellTyped(t)
    ensures t == State(SetReg(s.regs, rd, (s.regs[rs1] * Pow2(imm)) % W), s.mem)
  {
    hide Pow2;
    var i := Machine.Add(rd, rs1, rs1);
    var s1 := Step(i, s);
    Run1(i, s);
    t := DoublesRun(rd, imm - 1, s1);
    RunAppend([i], Doubles(rd, imm - 1), s);
    DoubleShift(s.regs[rs1], imm);
  }

  /** The sign bit of a word. */
  function SignBit(v: int): int {
    if v >= W / 2 then 1 else 0
  }

  lemma SignBitByte(v: int)
    requires 0 <= v < W
    ensures 0 <= Byte(Split(v), 3) < 256
    ensures Byte(Split((Byte(Split(v), 3) * Pow2(1)) % W), 1) == SignBit(v)
  {
    assert Pow2(1) == 2;
    hide Pow2;
    var b := v / 0x100_0000;
    assert 0 <= b < 256 && b % 256 == b;
    var d := 2 * b;
    assert d % W == d && d / 0x100 == (if b >= 128 then 1 else 0);
  }

  lemma MsbRuns(rd: Reg, rs1: Reg, s: State) returns (t: State, w: Word)
    requires Room(s) && rd != SP
    ensures t == Run(Msb(rd, rs1), s) && Room(t)
    ensures Apart(t) == Parts(SetReg(s.regs, rd, SignBit(s.regs[rs1])), Slots(s)[VAR_C := w], Rest(s))
  {
    hide Step, Split, Byte, Pow2, SignBit, GetByte, SlliCode;
    var s1 := GetByteRuns(rd, rs1, 3, s);
    var s2 := SlliRuns(rd, rd, 1, s1);
    RegOnly(s1, s2, rd, (s1.regs[rd] * Pow2(1)) % W);
    t := GetByteRuns(rd, rd, 1, s2);
    SignBitByte(s.regs[rs1]);
    RunAppend(SlliCode(rd, rd, 1), GetByte(rd, rd, 1), s1);
    RunAppend(GetByte(rd, rs1, 3), SlliCode(rd, rd, 1) + GetByte(rd, rd, 1), s);
    w := Split(s2.regs[rd]);
  }

  // ---------------------------------------------------------------- complement and subtraction

  lemma XorByte(b: int)
    requires 0 <= b < 256
    ensures Xor(255, b) == 255 - b
  {
    assert Pow2(8) == 256;
    XorSwap(255, b);
    XorOnes(b, 8, 256);
  }

  lemma {:induction false} XorSwap(a: nat, b: nat)
    ensures Xor(a, b) == Xor(b, a)
  {
    if a > 0 && b > 0 {
      XorSwap(a / 2, b / 2);
    }
  }

  lemma XorLookup(L: Layout, b: int)
    requires LayoutOK(L) && 0 <= b < 256
    ensures ByteAt(L.rom, L.Xor8() + 0xff00 + b, 255 - b) && 0 <= L.Xor8() + 0xff00 + b < W
  {
    XorByte(b);
    assert LogicEntry(L, 255, b);
    assert RomAddress(L, L.Xor8() + 0xff00 + b);
  }

  lemma NotByteRuns(L: Layout, k: ByteNo, s: State) returns (t: State)
    requires LayoutOK(L) && RomOK(L, s) && s.regs[TP] == L.Xor8() + 0xff00 && IsWord(Slots(s)[VAR_C])
    ensures t == Run(NotByte(k), s) && RomOK(L, t)
    ensures var c := 255 - Byte(Slots(s)[VAR_C], k);
            Apart(t) == Parts(SetReg(s.regs, GP, c), Slots(s)[VAR_D := WithByte(Slots(s)[VAR_D], k, c)], Rest(s))
  {
    hide Split, WithByte, RomOK, LayoutOK, Step, ByteAt, Slots, Rest, WellTyped, LoadWord, Run;
    RoomOf(L, s);
    var b := Byte(Slots(s)[VAR_C], k);
    XorLookup(L, b);
    var s1 := GetLbu(GP, VAR_C, k, s);
    var s2 := DoAdd(GP, GP, TP, s1);
    RomKept(L, s, s2);
    var s3 := GetRomByte(L, GP, GP, 255 - b, s2);
    t := DoSb(GP, VAR_D, k, s3);
    RomKept(L, s, t);
    Run4(LbuSlot(GP, VAR_C, k), Machine.Add(GP, GP, TP), Lbu(GP, 0, GP), SbSlot(GP, VAR_D, k), s);
  }

  lemma Complement(v: int, w: Word)
    requires 0 <= v < W && IsWord(w)
    ensures Join(Word(255 - Byte(Split(v), 0), 255 - Byte(Split(v), 1), 255 - Byte(Split(v), 2),
                      255 - Byte(Split(v), 3)))
         == W - 1 - v
  {
    JoinSplit(v);
  }

  /** All ones less v into rd; tp is lost, gp is saved and restored. */
  lemma NotRuns(L: Layout, rd: Reg, rs1: Reg, s: State) returns (t: State, slots: seq<Word>)
    requires LayoutOK(L) && RomOK(L, s)
    ensures t == Run(NotCode(L, rd, rs1), s) && WellTyped(t)
    ensures |slots| == 8 && (forall n | 1 <= n <= 7 && n != 3 && n != VAR_C && n != VAR_D :: slots[n] == Slots(s)[n])
    ensures t.regs == SetReg(SetReg(s.regs, TP, L.Xor8() + 0xff00), rd, W - 1 - s.regs[rs1])
    ensures rd != SP ==> RomOK(L, t) && Apart(t) == Parts(t.regs, slots, Rest(s))
    ensures rd != TP && rd != GP ==> Effect(L, rd, W - 1 - s.regs[rs1], s, t)
  {
    hide Split, Join, RomOK, LayoutOK, Step, ByteAt, NotByte, La, Slots, Rest, WellTyped, LoadWord, Run, Effect;
    RoomOf(L, s);
    var v := s.regs[rs1];
    JoinSplit(v);
    JoinSplit(s.regs[GP]);
    XorLookup(L, 0);
    var s1 := DoSw(GP, 3, s);
    var s2 := DoSw(rs1, VAR_C, s1);
    Run2(SwSlot(GP, 3), SwSlot(rs1, VAR_C), s);
    var s3 := DoLa(TP, L.Xor8() + 0xff00, s2);
    RomKept(L, s, s3);
    var s4 := NotByteRuns(L, 3, s3);
    var s5 := NotByteRuns(L, 2, s4);
    var s6 := NotByteRuns(L, 1, s5);
    var s7 := NotByteRuns(L, 0, s6);
    RoomOf(L, s7);
    var s8 := GetLw(GP, 3, s7);
    Complement(v, Slots(s7)[VAR_D]);
    t := DoLw(rd, VAR_D, s8);
    Run2(LwSlot(GP, 3), LwSlot(rd, VAR_D), s7);
    var last := [LwSlot(GP, 3), LwSlot(rd, VAR_D)];
    RunAppend(NotByte(0), last, s6);
    RunAppend(NotByte(1), NotByte(0) + last, s5);
    RunAppend(NotByte(2), NotByte(1) + (NotByte(0) + last), s4);
    RunAppend(NotByte(3), NotByte(2) + (NotByte(1) + (NotByte(0) + last)), s3);
    RunAppend(La(TP, L.Xor8() + 0xff00), NotByte(3) + (NotByte(2) + (NotByte(1) + (NotByte(0) + last))), s2);
    RunAppend([SwSlot(GP, 3), SwSlot(rs1, VAR_C)],
              La(TP, L.Xor8() + 0xff00) + (NotByte(3) + (NotByte(2) + (NotByte(1) + (NotByte(0) + last)))), s);
    slots := Slots(s7);
    assert s8.regs == SetReg(s.regs, TP, L.Xor8() + 0xff00);
    RomKept(L, s, s8);
    EffectBy(L, rd, W - 1 - v, s, s8, t);
    if rd != SP {
      RegOnly(s8, t, rd, W - 1 - v);
      RomKept(L, s, t);
    }
  }

  lemma NegateWord(a: int, b: int)
    requires 0 <= a < W && 0 <= b < W
    ensures ((a + (W - 1 - b)) % W + 1) % W == (a - b) % W
  {
  }

  /** inst-replace.h:110-115: rd = rs1 - rs2, modulo 2^32. */
  lemma SubRuns(L: Layout, rd: Reg, rs1: Reg, rs2: Reg, s: State) returns (t: State, slots: seq<Word>)
    requires LayoutOK(L) && RomOK(L, s) && rs1 != TP
    ensures t == Run(SubCode(L, rd, rs1, rs2), s) && WellTyped(t)
    ensures |slots| == 8 && (forall n | 1 <= n <= 7 && n != 3 && n != VAR_C && n != VAR_D :: slots[n] == Slots(s)[n])
    ensures t.regs == SetReg(SetReg(s.regs, TP, W - 1 - s.regs[rs2]), rd, (s.regs[rs1] - s.regs[rs2]) % W)
    ensures rd != SP ==> RomOK(L, t) && Apart(t) == Parts(t.regs, slots, Rest(s))
    ensures Effect(L, rd, (s.regs[rs1] - s.regs[rs2]) % W, s, t)
  {
    hide RomOK, LayoutOK, NotCode, Slots, Rest, WellTyped, Run, Effect;
    RoomOf(L, s);
    var s1;
    s1, slots := NotRuns(L, TP, rs2, s);
    RoomOf(L, s1);
    var i, j := Machine.Add(rd, rs1, TP), Addi(rd, rd, 1);
    Run2(i, j, s1);
    var s2 := Step(i, s1);
    StepTyped(j, s2);
    t := Step(j, s2);
    RunAppend(NotCode(L, TP, rs2), [i, j], s);
    NegateWord(s.regs[rs1], s.regs[rs2]);
    EffectBy(L, rd, (s.regs[rs1] - s.regs[rs2]) % W, s, s1, t);
    if rd != SP {
      RegOnly(s1, t, rd, (s.regs[rs1] - s.regs[rs2]) % W);
      RomKept(L, s, t);
    }
  }
}
