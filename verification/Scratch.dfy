/** The seven words below sp as named slots, apart from the rest of memory (inst-replace.h:30-37). */
module Scratch {
  import opened Bits
  import opened Machine

  const VAR_A := 4
  const VAR_B := 5
  const VAR_C := 6
  const VAR_D := 7

  type Slot = n: int | 1 <= n <= 7 witness 1
  type ByteNo = k: int | 0 <= k < 4

  /** There are 28 bytes below sp. */
  ghost predicate Room(s: State) {
    WellTyped(s) && 28 <= s.regs[SP]
  }

  /** Slot n occupies the bytes sp - 4n .. sp - 4n + 3; index 0 is not used. */
  ghost function Slots(s: State): (r: seq<Word>)
    requires Room(s)
    ensures |r| == 8 && forall n | 1 <= n <= 7 :: r[n] == LoadWord(s.mem, s.regs[SP] - 4 * n)
  {
    seq(8, n => if 1 <= n <= 7 then LoadWord(s.mem, s.regs[SP] - 4 * n) else Word(0, 0, 0, 0))
  }

  /** Everything that is not a slot. */
  ghost function Rest(s: State): seq<int>
    requires Room(s)
  {
    s.mem[..s.regs[SP] - 28] + s.mem[s.regs[SP]..]
  }

  /** Registers, slots, and the rest of memory. */
  datatype Parts = Parts(regs: seq<int>, slots: seq<Word>, rest: seq<int>)

  ghost function Apart(s: State): (p: Parts)
    requires Room(s)
    ensures |p.regs| == 32 && |p.slots| == 8
  {
    Parts(s.regs, Slots(s), Rest(s))
  }

  function Byte(w: Word, k: ByteNo): int {
    if k == 0 then w.b0 else if k == 1 then w.b1 else if k == 2 then w.b2 else w.b3
  }

  function WithByte(w: Word, k: ByteNo, b: int): Word {
    if k == 0 then w.(b0 := b) else if k == 1 then w.(b1 := b) else if k == 2 then w.(b2 := b) else w.(b3 := b)
  }

  // The accesses SP_VAR(n) and SP_VAR_BYTE(n, k).
  function SwSlot(r: Reg, n: Slot): Base { Sw(r, -4 * n, SP) }
  function LwSlot(r: Reg, n: Slot): Base { Lw(r, -4 * n, SP) }
  function SbSlot(r: Reg, n: Slot, k: ByteNo): Base { Sb(r, -4 * n + k, SP) }
  function LbuSlot(r: Reg, n: Slot, k: ByteNo): Base { Lbu(r, -4 * n + k, SP) }

  lemma SlotsAre(s: State, v: seq<Word>)
    requires Room(s) && |v| == 8 && v[0] == Word(0, 0, 0, 0)
    requires forall n | 1 <= n <= 7 :: v[n] == LoadWord(s.mem, s.regs[SP] - 4 * n)
    ensures Slots(s) == v
  {
  }

  lemma SlotZero(s: State)
    requires Room(s)
    ensures Slots(s)[0] == Word(0, 0, 0, 0)
  {
  }

  lemma LoadStore(m: seq<int>, a: int, b: int, w: Word)
    requires |m| == W && 0 <= a && a + 3 < W && 0 <= b && b + 3 < W && (a == b || a + 4 <= b || b + 4 <= a)
    ensures |StoreWord(m, a, w)| == W
    ensures LoadWord(StoreWord(m, a, w), b) == if a == b then w else LoadWord(m, b)
  {
    assert a % W == a && (a + 1) % W == a + 1 && (a + 2) % W == a + 2 && (a + 3) % W == a + 3;
    assert b % W == b && (b + 1) % W == b + 1 && (b + 2) % W == b + 2 && (b + 3) % W == b + 3;
  }

  lemma StoreFrame(m: seq<int>, a: int, w: Word, lo: int, hi: int)
    requires |m| == W && 0 <= lo <= a && a + 4 <= hi <= W
    ensures |StoreWord(m, a, w)| == W
    ensures StoreWord(m, a, w)[..lo] == m[..lo] && StoreWord(m, a, w)[hi..] == m[hi..]
  {
    assert a % W == a && (a + 1) % W == a + 1 && (a + 2) % W == a + 2 && (a + 3) % W == a + 3;
  }

  lemma StoreSlot(m: seq<int>, sp: int, n: Slot, w: Word)
    requires |m| == W && 28 <= sp < W
    ensures |StoreWord(m, sp - 4 * n, w)| == W
    ensures forall j | 1 <= j <= 7 :: (LoadWord(StoreWord(m, sp - 4 * n, w), sp - 4 * j)
                                    == if j == n then w else LoadWord(m, sp - 4 * j))
    ensures StoreWord(m, sp - 4 * n, w)[..sp - 28] == m[..sp - 28] && StoreWord(m, sp - 4 * n, w)[sp..] == m[sp..]
  {
    hide StoreWord, LoadWord;
    StoreFrame(m, sp - 4 * n, w, sp - 28, sp);
    forall j | 1 <= j <= 7
      ensures LoadWord(StoreWord(m, sp - 4 * n, w), sp - 4 * j) == if j == n then w else LoadWord(m, sp - 4 * j)
    {
      LoadStore(m, sp - 4 * n, sp - 4 * j, w);
    }
  }

  lemma LoadStoreByte(m: seq<int>, a: int, k: ByteNo, c: int, b: int)
    requires |m| == W && 0 <= a && a + 3 < W && 0 <= c && c + 3 < W && (a == c || a + 4 <= c || c + 4 <= a)
    ensures LoadWord(m[a + k := b], c) == if a == c then WithByte(LoadWord(m, a), k, b) else LoadWord(m, c)
  {
    assert a % W == a && (a + 1) % W == a + 1 && (a + 2) % W == a + 2 && (a + 3) % W == a + 3;
    assert c % W == c && (c + 1) % W == c + 1 && (c + 2) % W == c + 2 && (c + 3) % W == c + 3;
  }

  lemma StoreSlotByte(m: seq<int>, sp: int, n: Slot, k: ByteNo, b: int)
    requires |m| == W && 28 <= sp < W
    ensures 0 <= sp - 4 * n + k < W
    ensures forall j | 1 <= j <= 7 :: (LoadWord(m[sp - 4 * n + k := b], sp - 4 * j)
                                    == if j == n then WithByte(LoadWord(m, sp - 4 * n), k, b)
                                        else LoadWord(m, sp - 4 * j))
    ensures m[sp - 4 * n + k := b][..sp - 28] == m[..sp - 28] && m[sp - 4 * n + k := b][sp..] == m[sp..]
  {
    hide LoadWord, WithByte;
    forall j | 1 <= j <= 7
      ensures LoadWord(m[sp - 4 * n + k := b], sp - 4 * j)
           == if j == n then WithByte(LoadWord(m, sp - 4 * n), k, b) else LoadWord(m, sp - 4 * j)
    {
      LoadStoreByte(m, sp - 4 * n, k, sp - 4 * j, b);
    }
  }

  lemma DoSw(r: Reg, n: Slot, s: State) returns (s': State)
    requires Room(s)
    ensures s' == Step(SwSlot(r, n), s) && Room(s')
    ensures Apart(s') == Apart(s).(slots := Slots(s)[n := Split(s.regs[r])])
  {
    hide StoreWord, LoadWord, Split;
    s' := Step(SwSlot(r, n), s);
    StepTyped(SwSlot(r, n), s);
    StoreSlot(s.mem, s.regs[SP], n, Split(s.regs[r]));
    SlotZero(s);
    assert s'.mem == StoreWord(s.mem, s.regs[SP] - 4 * n, Split(s.regs[r])) by { AddrBelow(s.regs[SP], 4 * n); }
    SlotsAre(s', Slots(s)[n := Split(s.regs[r])]);
  }

  lemma AddrBelow(sp: int, d: int)
    requires 28 <= sp < W && 0 <= d <= 28
    ensures Addr(sp, -d) == sp - d
  {
  }

  lemma DoSb(r: Reg, n: Slot, k: ByteNo, s: State) returns (s': State)
    requires Room(s)
    ensures s' == Step(SbSlot(r, n, k), s) && Room(s')
    ensures Apart(s') == Apart(s).(slots := Slots(s)[n := WithByte(Slots(s)[n], k, s.regs[r] % 256)])
  {
    hide StoreWord, LoadWord, WithByte;
    s' := Step(SbSlot(r, n, k), s);
    StepTyped(SbSlot(r, n, k), s);
    StoreSlotByte(s.mem, s.regs[SP], n, k, s.regs[r] % 256);
    SlotZero(s);
    AddrBelow(s.regs[SP], 4 * n - k);
    SlotsAre(s', Slots(s)[n := WithByte(Slots(s)[n], k, s.regs[r] % 256)]);
  }

  lemma DoLw(r: Reg, n: Slot, s: State) returns (s': State)
    requires Room(s)
    ensures s' == Step(LwSlot(r, n), s) && WellTyped(s')
    ensures s' == State(SetReg(s.regs, r, Join(Slots(s)[n])), s.mem)
    ensures IsWord(Slots(s)[n])
  {
    s' := Step(LwSlot(r, n), s);
    StepTyped(LwSlot(r, n), s);
    AddrBelow(s.regs[SP], 4 * n);
  }

  lemma DoLbu(r: Reg, n: Slot, k: ByteNo, s: State) returns (s': State)
    requires Room(s)
    ensures s' == Step(LbuSlot(r, n, k), s) && WellTyped(s')
    ensures s' == State(SetReg(s.regs, r, Byte(Slots(s)[n], k)), s.mem)
    ensures IsWord(Slots(s)[n])
  {
    s' := Step(LbuSlot(r, n, k), s);
    StepTyped(LbuSlot(r, n, k), s);
    AddrBelow(s.regs[SP], 4 * n - k);
  }

  /** An instruction that touches only a register other than sp leaves slots and rest alone. */
  lemma RegOnly(s: State, s': State, r: Reg, v: int)
    requires Room(s) && WellTyped(s') && s' == State(SetReg(s.regs, r, v), s.mem) && r != SP
    ensures Room(s') && Apart(s') == Apart(s).(regs := SetReg(s.regs, r, v))
  {
    SlotZero(s);
    SlotsAre(s', Slots(s));
  }

  /** Outside the slots, memory is what Rest says. */
  lemma RestDecides(s: State, s': State, a: int)
    requires Room(s) && Room(s') && s'.regs[SP] == s.regs[SP] && Rest(s') == Rest(s)
    requires 0 <= a < W && !(s.regs[SP] - 28 <= a < s.regs[SP])
    ensures s'.mem[a] == s.mem[a]
  {
    var sp := s.regs[SP];
    if a < sp {
      assert Rest(s)[a] == s.mem[a] && Rest(s')[a] == s'.mem[a];
    } else {
      assert Rest(s)[a - 28] == s.mem[a] && Rest(s')[a - 28] == s'.mem[a];
    }
  }
}
