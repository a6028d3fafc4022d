/** The eight base instructions (inst-replace.h:2) over 32 registers and byte-addressed memory. */
module Machine {
  import opened Bits

  type Reg = r: int | 0 <= r < 32
  type Imm = i: int | -2048 <= i < 2048

  const ZERO: Reg := 0
  const SP: Reg := 2
  const GP: Reg := 3
  const TP: Reg := 4
  const S0: Reg := 8
  const S1: Reg := 9

  datatype State = State(regs: seq<int>, mem: seq<int>)

  datatype Base =
    | Add(rd: Reg, rs1: Reg, rs2: Reg)
    | Addi(rd: Reg, rs1: Reg, imm: Imm)
    | Lui(rd: Reg, imm20: int)
    | Lw(rd: Reg, off: Imm, rs1: Reg)
    | Lbu(rd: Reg, off: Imm, rs1: Reg)
    | Sw(rs2: Reg, off: Imm, rs1: Reg)
    | Sb(rs2: Reg, off: Imm, rs1: Reg)

  ghost predicate WellTyped(s: State) {
    && |s.regs| == 32 && s.regs[0] == 0 && (forall r | 0 <= r < 32 :: 0 <= s.regs[r] < W)
    && |s.mem| == W && forall a | 0 <= a < W :: 0 <= s.mem[a] < 256
  }

  /** A word as its four bytes, lowest address first. */
  datatype Word = Word(b0: int, b1: int, b2: int, b3: int)

  function Split(v: int): Word {
    Word(v % 256, (v / 0x100) % 256, (v / 0x1_0000) % 256, (v / 0x100_0000) % 256)
  }

  function Join(w: Word): int {
    w.b0 + 0x100 * w.b1 + 0x1_0000 * w.b2 + 0x100_0000 * w.b3
  }

  predicate IsWord(w: Word) {
    0 <= w.b0 < 256 && 0 <= w.b1 < 256 && 0 <= w.b2 < 256 && 0 <= w.b3 < 256
  }

  lemma JoinSplit(v: int)
    requires 0 <= v < W
    ensures IsWord(Split(v)) && Join(Split(v)) == v
  {
    var q1 := v / 0x100;
    var q2 := q1 / 0x100;
    assert v / 0x1_0000 == q2 && v / 0x100_0000 == q2 / 0x100;
    assert q2 / 0x100 < 0x100;
  }

  lemma SplitJoin(w: Word)
    requires IsWord(w)
    ensures 0 <= Join(w) < W && Split(Join(w)) == w
  {
    var v := Join(w);
    MulDivMod(v, 0x100, w.b1 + 0x100 * w.b2 + 0x1_0000 * w.b3, w.b0);
    MulDivMod(v, 0x1_0000, w.b2 + 0x100 * w.b3, w.b0 + 0x100 * w.b1);
    MulDivMod(v, 0x100_0000, w.b3, w.b0 + 0x100 * w.b1 + 0x1_0000 * w.b2);
    MulDivMod(w.b1 + 0x100 * w.b2 + 0x1_0000 * w.b3, 0x100, w.b2 + 0x100 * w.b3, w.b1);
    MulDivMod(w.b2 + 0x100 * w.b3, 0x100, w.b3, w.b2);
    MulDivMod(w.b3, 0x100, 0, w.b3);
  }

  function Addr(base: int, off: int): int {
    (base + off) % W
  }

  function LoadWord(m: seq<int>, a: int): Word
    requires |m| == W
  {
    Word(m[a % W], m[(a + 1) % W], m[(a + 2) % W], m[(a + 3) % W])
  }

  function StoreWord(m: seq<int>, a: int, w: Word): seq<int>
    requires |m| == W
  {
    m[a % W := w.b0][(a + 1) % W := w.b1][(a + 2) % W := w.b2][(a + 3) % W := w.b3]
  }

  function SetReg(regs: seq<int>, r: Reg, v: int): seq<int>
    requires |regs| == 32
  {
    if r == 0 then regs else regs[r := v]
  }

  /** One base instruction. Integer registers wrap at 2^32; loads and stores are little-endian. */
  function Step(i: Base, s: State): State
    requires WellTyped(s)
  {
    match i
    case Add(rd, rs1, rs2) => State(SetReg(s.regs, rd, (s.regs[rs1] + s.regs[rs2]) % W), s.mem)
    case Addi(rd, rs1, imm) => State(SetReg(s.regs, rd, (s.regs[rs1] + imm) % W), s.mem)
    case Lui(rd, imm20) => State(SetReg(s.regs, rd, (imm20 * 4096) % W), s.mem)
    case Lw(rd, off, rs1) => State(SetReg(s.regs, rd, Join(LoadWord(s.mem, Addr(s.regs[rs1], off)))), s.mem)
    case Lbu(rd, off, rs1) => State(SetReg(s.regs, rd, s.mem[Addr(s.regs[rs1], off)]), s.mem)
    case Sw(rs2, off, rs1) => State(s.regs, StoreWord(s.mem, Addr(s.regs[rs1], off), Split(s.regs[rs2])))
    case Sb(rs2, off, rs1) => State(s.regs, s.mem[Addr(s.regs[rs1], off) := s.regs[rs2] % 256])
  }

  lemma StepTyped(i: Base, s: State)
    requires WellTyped(s)
    ensures WellTyped(Step(i, s))
  {
    hide Split, Join;
    match i {
      case Lw(rd, off, rs1) =>
        SplitJoin(LoadWord(s.mem, Addr(s.regs[rs1], off)));
      case Sw(rs2, off, rs1) =>
        JoinSplit(s.regs[rs2]);
        StoreTyped(s.mem, Addr(s.regs[rs1], off), Split(s.regs[rs2]));
      case Sb(rs2, off, rs1) =>
      case Lbu(rd, off, rs1) =>
      case Lui(rd, imm20) =>
      case Add(rd, rs1, rs2) =>
      case Addi(rd, rs1, imm) =>
    }
  }

  lemma StoreTyped(m: seq<int>, a: int, w: Word)
    requires |m| == W && (forall a | 0 <= a < W :: 0 <= m[a] < 256) && IsWord(w)
    ensures |StoreWord(m, a, w)| == W && forall a' | 0 <= a' < W :: 0 <= StoreWord(m, a, w)[a'] < 256
  {
  }

  /** Straight-line code. */
  function Run(code: seq<Base>, s: State): (r: State)
    requires WellTyped(s)
    ensures WellTyped(r)
  {
    if code == [] then s else StepTyped(code[0], s); Run(code[1..], Step(code[0], s))
  }

  lemma {:induction false} RunAppend(a: seq<Base>, b: seq<Base>, s: State)
    requires WellTyped(s)
    ensures Run(a + b, s) == Run(b, Run(a, s))
  {
    if a == [] {
      assert a + b == b;
    } else {
      StepTyped(a[0], s);
      RunAppend(a[1..], b, Step(a[0], s));
      assert (a + b)[1..] == a[1..] + b && (a + b)[0] == a[0];
    }
  }

  lemma Run1(i: Base, s: State)
    requires WellTyped(s)
    ensures WellTyped(Step(i, s)) && Run([i], s) == Step(i, s)
  {
    StepTyped(i, s);
    assert [i][1..] == [];
  }

  // ---------------------------------------------------------------- la: lui and addi

  /** %hi and %lo of an address. */
  function Hi(addr: int): (r: int)
    ensures 0 <= r < 0x10_0000
  {
    ((addr + 0x800) / 0x1000) % 0x10_0000
  }

  function Lo(addr: int): Imm {
    (addr + 0x800) % 0x1000 - 0x800
  }

  /** inst-replace.h:605-608 */
  function La(r: Reg, addr: int): seq<Base> {
    [Lui(r, Hi(addr)), Addi(r, r, Lo(addr))]
  }

  lemma HiLo(addr: int)
    requires 0 <= addr < W
    ensures ((Hi(addr) * 4096) % W + Lo(addr)) % W == addr
  {
    var x := addr + 0x800;
    var h := x / 0x1000;
    assert x == 0x1000 * h + x % 0x1000;
    if x < W {
      MulDivMod(h, 0x10_0000, 0, h);
      MulDivMod(h * 4096, W, 0, h * 4096);
      MulDivMod(addr, W, 0, addr);
    } else {
      MulDivMod(x, 0x1000, 0x10_0000, x - W);
      assert (addr - W) % W == addr;
    }
  }

  lemma RunLa(r: Reg, addr: int, s: State)
    requires WellTyped(s) && 0 <= addr < W
    ensures Run(La(r, addr), s) == State(SetReg(s.regs, r, addr), s.mem)
  {
    HiLo(addr);
    var s1 := Step(Lui(r, Hi(addr)), s);
    Run1(Lui(r, Hi(addr)), s);
    Run1(Addi(r, r, Lo(addr)), s1);
    RunAppend([Lui(r, Hi(addr))], [Addi(r, r, Lo(addr))], s);
    assert La(r, addr) == [Lui(r, Hi(addr))] + [Addi(r, r, Lo(addr))];
  }
}
