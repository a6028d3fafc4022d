/** Shifting a word byte by byte: the partial results fit together without carries. */
module ShiftArith {
  import opened Bits
  import opened Machine
  import opened Tables
  import MacroBasics

  lemma IntDivMod(x: int, m: int, q: int, r: int)
    requires 0 <= r < m && x == q * m + r
    ensures x / m == q && x % m == r
  {
    var q' := x / m;
    assert x == q' * m + x % m;
    Scale(q, q', m);
    Scale(q', q, m);
  }

  lemma Scale(x: int, y: int, m: int)
    requires m >= 0
    ensures x < y ==> x * m + m <= y * m
  {
    if x < y {
      MulMono(x + 1, y, m);
      assert (x + 1) * m == x * m + m;
    }
  }

  /** a and b share no bits: a is a multiple of 2^m and b is below it. Then no power of two lets them carry. */
  lemma NoCarry(a: int, b: nat, m: nat, j: nat, p: nat)
    requires p == Pow2(j) && a % Pow2(m) == 0 && b < Pow2(m)
    ensures (a + b) / p == a / p + b / p && (a + b) % p == a % p + b % p
  {
    hide Pow2;
    if j <= m {
      Pow2Add(m - j, j);
      NoCarryAligned(a, b, Pow2(m - j), p, Pow2(m));
    } else {
      Pow2Add(j - m, m);
      NoCarryWide(a, b, Pow2(m), Pow2(j - m), p);
    }
  }

  lemma NoCarryAligned(a: int, b: nat, e: nat, p: nat, h: nat)
    requires p > 0 && e > 0 && h == e * p && a % h == 0 && b < h
    ensures (a + b) / p == a / p + b / p && (a + b) % p == a % p + b % p
    ensures a / p == (a / h) * e
  {
    DivModBound(b, p);
    var q := a / h;
    assert a == q * h;
    Assoc(q, e, p);
    IntDivMod(a, p, q * e, 0);
    assert (q * e + b / p) * p == (q * e) * p + (b / p) * p;
    IntDivMod(a + b, p, q * e + b / p, b % p);
  }

  lemma NoCarryWide(a: int, b: nat, h: nat, e: nat, p: nat)
    requires h > 0 && e > 0 && p == e * h && a % h == 0 && b < h
    ensures p > 0 && (a + b) / p == a / p + b / p && (a + b) % p == a % p + b % p && b / p == 0
  {
    Multiple(a, h, e, p);
    IntDivMod(b, p, 0, b);
    assert a == (a / p) * p + a % p;
    IntDivMod(a + b, p, a / p, a % p + b);
  }

  lemma Assoc(x: int, y: int, z: int)
    ensures x * (y * z) == (x * y) * z
  {
  }

  /** The remainder of a multiple of h by a multiple p of h leaves room for h. */
  lemma Multiple(a: int, h: int, e: int, p: int)
    requires h > 0 && e > 0 && p == e * h && a % h == 0
    ensures p > 0 && 0 <= a % p <= p - h
  {
    Scale(0, e, h);
    var r, q := a % p, a / p;
    assert a == q * p + r;
    Assoc(q, e, h);
    var k := a / h - q * e;
    assert a == (a / h) * h;
    assert k * h == (a / h) * h - (q * e) * h;
    assert r == k * h;
    Scale(e - 1, k, h);
    assert (e - 1) * h == e * h - h;
    if k <= e - 1 {
      MulMono(k, e - 1, h);
    }
  }

  // ---------------------------------------------------------------- right shifts

  /** The bytes below the top one, in place. */
  function Low24(w: Word): int {
    w.b0 + 0x100 * w.b1 + 0x1_0000 * w.b2
  }

  lemma Thirds(w: Word, j: nat, p: nat)
    requires IsWord(w) && p == Pow2(j)
    ensures Low24(w) / p == (0x1_0000 * w.b2) / p + (0x100 * w.b1) / p + w.b0 / p
    ensures (Low24(w) / p) < 0x100_0000
  {
    Powers();
    NoCarry(0x1_0000 * w.b2, 0x100 * w.b1 + w.b0, 16, j, p);
    NoCarry(0x100 * w.b1, w.b0, 8, j, p);
    DivModBound(Low24(w), p);
    MulMono(1, p, Low24(w) / p);
  }

  lemma Powers()
    ensures Pow2(8) == 0x100 && Pow2(16) == 0x1_0000 && Pow2(24) == 0x100_0000
  {
    assert Pow2(8) == 0x100 && Pow2(16) == 0x1_0000;
    Pow2Add(8, 16);
  }

  /** A table entry holds the shifted byte at the top of a word; moving it down gives the byte's own contribution. */
  lemma EntryShifted(x: int, j: nat, p: nat)
    requires 0 <= x < 256 && p == Pow2(j)
    ensures 0 <= (x * 0x100_0000) / p < W
    ensures (x * 0x100_0000) / p / 0x100 == (0x1_0000 * x) / p
    ensures (x * 0x100_0000) / p / 0x1_0000 == (0x100 * x) / p
    ensures (x * 0x100_0000) / p / 0x100_0000 == x / p
  {
    var t := x * 0x100_0000;
    DivModBound(t, p);
    MulMono(1, p, t / p);
    Swap(t, p, 0x100);
    Swap(t, p, 0x1_0000);
    Swap(t, p, 0x100_0000);
  }

  lemma Swap(t: nat, p: nat, c: nat)
    requires p > 0 && c > 0
    ensures (t / p) / c == (t / c) / p
  {
    DivMul(t, p, c);
    DivMul(t, c, p);
    assert p * c == c * p;
  }

  /** When b is nonzero after the shift, the shifted a still lies above it. */
  lemma ShiftedNoCarry(a: nat, b: nat, m: nat, j: nat, p: nat, c: nat, k: nat)
    requires p == Pow2(j) && a % Pow2(m) == 0 && b < Pow2(m) && c == Pow2(k)
    ensures a / p >= 0 && b / p >= 0
    ensures (a / p + b / p) / c == a / p / c + b / p / c
    ensures (a / p + b / p) % c == (a / p) % c + (b / p) % c
  {
    hide Pow2;
    DivModBound(a, p);
    DivModBound(b, p);
    if j <= m {
      Pow2Add(m - j, j);
      var e, h := Pow2(m - j), Pow2(m);
      NoCarryAligned(a, b, e, p, h);
      MultipleOf(a / p, a / h, e);
      DivBelowPower(b, p, e);
      NoCarry(a / p, b / p, m - j, k, c);
    } else {
      Pow2Add(j - m, m);
      NoCarryWide(a, b, Pow2(m), Pow2(j - m), p);
      ZeroAddend(a / p, c);
    }
  }

  lemma MultipleOf(x: int, q: int, e: int)
    requires e > 0 && x == q * e
    ensures x % e == 0
  {
    IntDivMod(x, e, q, 0);
  }

  lemma ZeroAddend(x: int, c: int)
    requires c > 0
    ensures (x + 0) / c == x / c + 0 / c && (x + 0) % c == x % c + 0 % c && 0 / c == 0 && 0 % c == 0
  {
    IntDivMod(0, c, 0, 0);
  }

  lemma DivBelowPower(b: nat, p: nat, e: nat)
    requires p > 0 && b < e * p
    ensures 0 <= b / p < e
  {
    DivModBound(b, p);
    if b / p >= e {
      MulMono(e, b / p, p);
      assert false;
    }
  }

  /** The bytes assembled in gp: low byte, middle byte and high byte sums. inst-replace.h:482-502. */
  lemma LowBytesFit(w: Word, j: nat, p: nat)
    requires IsWord(w) && p == Pow2(j)
    ensures var c2, c1, c0 := (0x1_0000 * w.b2) / p, (0x100 * w.b1) / p, w.b0 / p;
            && 0 <= c2 && 0 <= c1 && 0 <= c0
            && c2 % 0x100 + c1 % 0x100 + c0 % 0x100 < 0x100
            && (c2 / 0x100) % 0x100 + (c1 / 0x100) % 0x100 < 0x100
            && c0 / 0x100 == 0 && c1 / 0x1_0000 == 0 && c2 / 0x100_0000 == 0
  {
    Powers();
    hide Pow2;
    var a, b, d := 0x1_0000 * w.b2, 0x100 * w.b1, w.b0;
    DivModBound(a, p);
    DivModBound(b, p);
    DivModBound(d, p);
    NoCarry(b, d, 8, j, p);
    ShiftedNoCarry(b, d, 8, j, p, 0x100, 8);
    ShiftedNoCarry(a, b + d, 16, j, p, 0x100, 8);
    SmallAfter(a, p);
    SmallAfter(b, p);
    SmallAfter(d, p);
    ShiftedNoCarry(a, b, 16, j, p, 0x100, 8);
    MiddleNoCarry(a / p, b / p, a, b, j, p);
  }

  lemma SmallAfter(x: nat, p: nat)
    requires p > 0
    ensures 0 <= x / p <= x
  {
    DivModBound(x, p);
    MulMono(1, p, x / p);
  }

  lemma MiddleNoCarry(x: nat, y: nat, a: nat, b: nat, j: nat, p: nat)
    requires p == Pow2(j) && a % 0x1_0000 == 0 && b < 0x1_0000 && x == a / p && y == b / p
    requires 0x100 == Pow2(8) && 0x1_0000 == Pow2(16)
    ensures (x / 0x100) % 0x100 + (y / 0x100) % 0x100 < 0x100
  {
    hide Pow2;
    ShiftedNoCarry(a, b, 16, j, p, 0x1_0000, 16);
    SumBelow(x, y);
  }

  lemma SumBelow(x: nat, y: nat)
    requires (x + y) % 0x1_0000 == x % 0x1_0000 + y % 0x1_0000
    ensures (x / 0x100) % 0x100 + (y / 0x100) % 0x100 < 0x100
  {
    var u, v := x % 0x1_0000, y % 0x1_0000;
    MiddleByte(x);
    MiddleByte(y);
    assert u / 0x100 + v / 0x100 <= (u + v) / 0x100;
  }

  lemma MiddleByte(x: nat)
    ensures (x / 0x100) % 0x100 == (x % 0x1_0000) / 0x100
  {
    DivMul(x, 0x100, 0x100);
    MulDivMod(x % 0x1_0000, 0x100, (x / 0x100) % 0x100, x % 0x100);
  }

  /**
   * A right shift is the shifted top byte plus the shifted rest; arithmetically, only the top byte carries the sign.
   */
  lemma RightShiftParts(v: int, j: nat)
    requires 0 <= v < W && j < 32
    ensures IsWord(Split(v)) && Pow2(j) > 0 && 0 <= Low24(Split(v)) / Pow2(j)
    ensures Shr(v, j) == Shr(Split(v).b3 * 0x100_0000, j) + Low24(Split(v)) / Pow2(j) < W
    ensures Sar32(v, j) == (Sar32(Split(v).b3 * 0x100_0000, j) + Low24(Split(v)) / Pow2(j)) % W
  {
    hide Split, Pow2, Low24, Signed32, Join;
    JoinSplit(v);
    var w, p := Split(v), Pow2(j);
    SplitShift(v, w, Low24(w), w.b3 * 0x100_0000, j, p);
  }

  lemma SplitShift(v: int, w: Word, low: int, top: int, j: nat, p: nat)
    requires IsWord(w) && v == Join(w) && low == Low24(w) && top == w.b3 * 0x100_0000 && p == Pow2(j) && 0 <= v < W
    ensures p > 0 && 0 <= low / p && v / p == top / p + low / p < W
    ensures (Signed32(v) / p) % W == ((Signed32(top) / p) % W + low / p) % W
  {
    hide Pow2;
    Powers();
    SmallAfter(v, p);
    SmallAfter(low, p);
    SignOfTop(v, w);
    NoCarry(top, low, 24, j, p);
    NoCarry(Signed32(top), low, 24, j, p);
    AddModulo(Signed32(top) / p, low / p);
  }

  lemma SignOfTop(v: int, w: Word)
    requires IsWord(w) && v == Join(w)
    ensures Signed32(v) == Signed32(w.b3 * 0x100_0000) + Low24(w)
    ensures Signed32(w.b3 * 0x100_0000) % 0x100_0000 == 0 && (w.b3 * 0x100_0000) % 0x100_0000 == 0
  {
  }

  lemma AddModulo(x: int, y: int)
    ensures (x % W + y) % W == (x + y) % W
  {
    MacroBasics.ModAdd(x % W + y, x / W);
  }

  /** The four partial products of a left shift, as the macro adds them up. */
  lemma LeftShiftParts(v: int, j: nat, y3: int, y2: int, y1: int, y0: int)
    requires 0 <= v < W && j < 32
    requires y3 == Shl32(Split(v).b3, j) && y2 == Shl32(Split(v).b2, j) && y1 == Shl32(Split(v).b1, j)
    requires y0 == Shl32(Split(v).b0, j)
    ensures (((0x100_0000 * (y3 % 0x100) + 0x1_0000 * (y2 % 0x1_0000)) % W + (y1 * 0x100) % W) % W + y0) % W
              == Shl32(v, j)
  {
    hide Split, Pow2;
    JoinSplit(v);
    var w, p := Split(v), Pow2(j);
    var k3, k2, k1, k0 := (w.b3 * p) / W, (w.b2 * p) / W, (w.b1 * p) / W, (w.b0 * p) / W;
    Euclid(w.b3 * p);
    Euclid(w.b2 * p);
    Euclid(w.b1 * p);
    Euclid(w.b0 * p);
    FourProducts(w, p);
    var x := 0x100_0000 * (y3 % 0x100) + 0x1_0000 * (y2 % 0x1_0000);
    SumModulo(x, y1 * 0x100, y0);
    var c := 0x100_0000 * k3 + y3 / 0x100 + 0x1_0000 * k2 + y2 / 0x1_0000 + 0x100 * k1 + k0;
    assert v * p == x + y1 * 0x100 + y0 + c * W by {
      assert y3 == 0x100 * (y3 / 0x100) + y3 % 0x100 && y2 == 0x1_0000 * (y2 / 0x1_0000) + y2 % 0x1_0000;
    }
    MacroBasics.ModAdd(x + y1 * 0x100 + y0, c);
  }

  lemma Euclid(x: int)
    ensures x == (x / W) * W + x % W
  {
  }

  lemma FourProducts(w: Word, p: int)
    ensures Join(w) * p == w.b0 * p + 0x100 * (w.b1 * p) + 0x1_0000 * (w.b2 * p) + 0x100_0000 * (w.b3 * p)
  {
  }

  lemma SumModulo(x: int, y: int, z: int)
    ensures ((x % W + y % W) % W + z) % W == (x + y + z) % W
  {
    AddModulo(x, y % W);
    AddModulo(y, x);
    AddModulo(x % W + y % W, z);
    AddModulo(x + y, z);
    AddModulo(x + y % W, z);
  }

  /** The three bytes that inst-replace.h:482-502 assembles from the shifted entries make up the shifted lower part. */
  lemma LowCombine(w: Word, j: nat, e2: int, e1: int, e0: int)
    requires IsWord(w) && 0 <= e2 == Shr(w.b2 * 0x100_0000, j) && 0 <= e1 == Shr(w.b1 * 0x100_0000, j)
    requires 0 <= e0 == Shr(w.b0 * 0x100_0000, j)
    ensures (var x, y, z := Split(e2), Split(e1), Split(e0);
             && IsWord(x) && IsWord(y) && IsWord(z)
             && x.b1 + y.b2 + z.b3 < 256 && x.b2 + y.b3 < 256
             && Join(Word(x.b1 + y.b2 + z.b3, x.b2 + y.b3, x.b3, 0)) == Low24(w) / Pow2(j))
  {
    hide Pow2;
    var p := Pow2(j);
    EntryShifted(w.b2, j, p);
    EntryShifted(w.b1, j, p);
    EntryShifted(w.b0, j, p);
    LowBytesFit(w, j, p);
    Thirds(w, j, p);
    CombineBytes(e2, e1, e0, (0x1_0000 * w.b2) / p, (0x100 * w.b1) / p, w.b0 / p);
  }

  lemma CombineBytes(e2: int, e1: int, e0: int, c2: int, c1: int, c0: int)
    requires 0 <= e2 < W && 0 <= e1 < W && 0 <= e0 < W
    requires e2 / 0x100 == c2 && e1 / 0x1_0000 == c1 && e0 / 0x100_0000 == c0
    requires c2 % 0x100 + c1 % 0x100 + c0 % 0x100 < 0x100
    requires (c2 / 0x100) % 0x100 + (c1 / 0x100) % 0x100 < 0x100
    requires c0 / 0x100 == 0 && c1 / 0x1_0000 == 0 && c2 / 0x100_0000 == 0
    ensures (var x, y, z := Split(e2), Split(e1), Split(e0);
             && IsWord(x) && IsWord(y) && IsWord(z)
             && x.b1 + y.b2 + z.b3 < 256 && x.b2 + y.b3 < 256
             && Join(Word(x.b1 + y.b2 + z.b3, x.b2 + y.b3, x.b3, 0)) == c2 + c1 + c0)
  {
    JoinSplit(e2);
    JoinSplit(e1);
    JoinSplit(e0);
    DivMul(e2, 0x100, 0x100);
    DivMul(e2, 0x1_0000, 0x100);
    DivMul(e1, 0x1_0000, 0x100);
    ThreeBytes(c2);
    ThreeBytes(c1);
    ThreeBytes(c0);
  }

  lemma ThreeBytes(c: int)
    requires 0 <= c < 0x100_0000
    ensures c == c % 0x100 + 0x100 * ((c / 0x100) % 0x100) + 0x1_0000 * ((c / 0x1_0000) % 0x100)
    ensures 0 <= c / 0x1_0000 < 0x100
  {
    DivMul(c, 0x100, 0x100);
    DivModBound(c, 0x100);
    DivModBound(c / 0x100, 0x100);
  }
}
