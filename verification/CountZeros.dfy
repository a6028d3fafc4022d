/** Counting leading and trailing zeros without branches (int64.c). */
module CountZeros {
  import opened Bits

  /** r zeros precede the highest one of the 32-bit word a. */
  ghost predicate Leading(a: nat, r: nat) {
    r <= 31 && Pow2(31 - r) <= a < Pow2(32 - r)
  }

  /** r zeros follow the lowest one of a. */
  ghost predicate Trailing(a: nat, r: nat) {
    a % Pow2(r) == 0 && (a / Pow2(r)) % 2 == 1
  }

  /** The bits of a above the top r ones of the window have been found to be zero; x is the window of w bits below. */
  ghost predicate Window(a: nat, x: nat, r: nat, w: nat) {
    r + w <= 32 && 0 < x < Pow2(w) && x == a / Pow2(32 - w - r)
  }

  /** (cond) as a mask: -(cond). */
  function Mask32(b: bool): nat {
    if b then W - 1 else 0
  }

  lemma AndMask(x: nat, b: bool)
    requires x < W
    ensures And(x, Mask32(b)) == if b then x else 0
    ensures Mask32(!b) == Xor(W - 1, Mask32(b))
  {
    Pow2Values();
    AndOnes(x, 32, W);
    AndCommutes(x, 0);
    XorOnes(W - 1, 32, W);
  }

  /** One halving of the window: the upper half is inspected through the mask (2^w - 1) << w. */
  lemma WindowStep(a: nat, x: nat, r: nat, w: nat, p: nat)
    requires Window(a, x, r, 2 * w) && p == Pow2(w)
    ensures And(x, (p - 1) * p) == 0 <==> x < p
    ensures x < p ==> Window(a, x, r + w, w) && Shr(x, 0) == x
    ensures x >= p ==> Window(a, Shr(x, w), r, w)
  {
    hide And, Pow2;
    Pow2Add(w, w);
    WindowTest(x, w, p);
    ShrZero(x);
    if x >= p {
      QuotientBelow(x, p, p);
      QuotientPositive(x, p);
      DivMul(a, Pow2(32 - 2 * w - r), p);
      Pow2Add(32 - 2 * w - r, w);
    }
  }

  lemma WindowTest(x: nat, w: nat, p: nat)
    requires p == Pow2(w) && x < p * p
    ensures And(x, (p - 1) * p) == 0 <==> x < p
  {
    hide And, Pow2;
    var q := x / p;
    QuotientBelow(x, p, p);
    AndHighMask(x, p - 1, w, p, q, (p - 1) * p);
    AndOnes(q, w, p);
    if x < p {
      MulDivMod(x, p, 0, x);
    } else {
      QuotientPositive(x, p);
    }
  }

  lemma ShrZero(x: nat)
    ensures Shr(x, 0) == x
  {
    MulDivMod(x, 1, x, 0);
  }

  lemma WindowOver(a: nat, x: nat, r: nat)
    requires Window(a, x, r, 2)
    ensures x >= 2 ==> Leading(a, r) && r <= 31
    ensures x == 1 ==> Leading(a, r + 1) && r + 1 <= 31
  {
    var p := Pow2(30 - r);
    assert Pow2(31 - r) == 2 * p && Pow2(32 - r) == 4 * p;
    DivModBound(a, p);
    MulMono(x, 3, p);
    if x >= 2 {
      MulMono(2, x, p);
    }
  }

  /** int64.c:626-655 */
  method Clzsi2(a: nat) returns (res: nat)
    requires 0 < a < W
    ensures Leading(a, res) && res <= 31
  {
    hide And, Window, Leading, Shr, Pow2, Sub32, Xor;
    WindowStart(a);
    var x := a;
    WindowStep(a, x, 0, 16, 65536);
    var t := if And(x, 0xFFFF_0000) == 0 then 16 else 0;
    x := Shr(x, 16 - t);
    var r := t;
    WindowStep(a, x, r, 8, 256);
    t := if And(x, 0xFF00) == 0 then 8 else 0;
    x := Shr(x, 8 - t);
    r := r + t;
    WindowStep(a, x, r, 4, 16);
    t := if And(x, 0xF0) == 0 then 4 else 0;
    x := Shr(x, 4 - t);
    r := r + t;
    WindowStep(a, x, r, 2, 4);
    t := if And(x, 0xC) == 0 then 2 else 0;
    x := Shr(x, 2 - t);
    r := r + t;
    WindowOver(a, x, r);
    WindowSmall(a, x, r);
    res := r + And(Sub32(2, x), Mask32(And(x, 2) == 0));
  }

  lemma WindowStart(a: nat)
    requires 0 < a < W
    ensures Window(a, a, 0, 32)
    ensures Pow2(16) == 65536 && Pow2(8) == 256 && Pow2(4) == 16 && Pow2(2) == 4
  {
    Pow2Values();
    MulDivMod(a, 1, a, 0);
  }

  lemma WindowSmall(a: nat, x: nat, r: nat)
    requires Window(a, x, r, 2)
    ensures 1 <= x <= 3 && And(Sub32(2, x), Mask32(And(x, 2) == 0)) == if x == 1 then 1 else 0
  {
    assert Pow2(2) == 4;
    assert And(1, 2) == 0 && And(2, 2) == 2 && And(3, 2) == 2;
    AndMask(Sub32(2, x), And(x, 2) == 0);
  }

  /** r zeros have been shifted out of a, leaving x, whose lowest one is among its low w bits. */
  ghost predicate Tail(a: nat, x: nat, r: nat, w: nat) {
    a % Pow2(r) == 0 && x == a / Pow2(r) && x % Pow2(w) != 0
  }

  lemma TailStep(a: nat, x: nat, r: nat, w: nat, p: nat)
    requires Tail(a, x, r, 2 * w) && p == Pow2(w)
    ensures And(x, p - 1) == 0 <==> x % p == 0
    ensures x % p == 0 ==> Tail(a, Shr(x, w), r + w, w)
    ensures x % p != 0 ==> Tail(a, x, r, w) && Shr(x, 0) == x
  {
    AndLowMask(x, w, p);
    Pow2Add(w, w);
    Pow2Add(r, w);
    DivMul(x, p, p);
    DivMul(a, Pow2(r), p);
    MulDivMod(x, 1, x, 0);
  }

  lemma TailStart(a: nat)
    requires 0 < a < W
    ensures Tail(a, a, 0, 32)
    ensures Pow2(16) == 65536 && Pow2(8) == 256 && Pow2(4) == 16 && Pow2(2) == 4
  {
    Pow2Values();
    MulDivMod(a, 1, a, 0);
    MulDivMod(a, W, 0, a);
  }

  lemma TailOver(a: nat, x: nat, r: nat)
    requires Tail(a, x, r, 2)
    ensures var y := And(x, 3);
            && 1 <= y <= 3 && And(Sub32(2, Shr(y, 1)), Mask32(And(y, 1) == 0)) == (if y == 2 then 1 else 0)
            && (y != 2 ==> Trailing(a, r)) && (y == 2 ==> Trailing(a, r + 1))
  {
    assert Pow2(2) == 4 && Pow2(1) == 2;
    AndLowMask(x, 2, 4);
    AndLowMask(And(x, 3), 1, 2);
    AndMask(Sub32(2, Shr(And(x, 3), 1)), And(And(x, 3), 1) == 0);
    Pow2Add(r, 1);
    DivMul(a, Pow2(r), 2);
  }

  lemma TrailingBound(a: nat, r: nat)
    requires Trailing(a, r) && 0 < a < W
    ensures r <= 31 && Pow2(r) <= a
  {
    DivModBound(a, Pow2(r));
    MulMono(1, a / Pow2(r), Pow2(r));
    Pow2Values();
    if r >= 32 {
      Pow2Monotone(32, r);
    }
  }

  /** int64.c:661-695 */
  method Ctzsi2(a: nat) returns (res: nat)
    requires 0 < a < W
    ensures Trailing(a, res) && res <= 31
  {
    hide And, Tail, Trailing, Shr, Pow2, Sub32, Xor;
    TailStart(a);
    var x := a;
    TailStep(a, x, 0, 16, 65536);
    var t := if And(x, 0xFFFF) == 0 then 16 else 0;
    x := Shr(x, t);
    var r := t;
    TailStep(a, x, r, 8, 256);
    t := if And(x, 0xFF) == 0 then 8 else 0;
    x := Shr(x, t);
    r := r + t;
    TailStep(a, x, r, 4, 16);
    t := if And(x, 0xF) == 0 then 4 else 0;
    x := Shr(x, t);
    r := r + t;
    TailStep(a, x, r, 2, 4);
    t := if And(x, 3) == 0 then 2 else 0;
    x := Shr(x, t);
    TailOver(a, x, r + t);
    x := And(x, 3);
    r := r + t;
    res := r + And(Sub32(2, Shr(x, 1)), Mask32(And(x, 1) == 0));
    TrailingBound(a, res);
  }

  // ---------------------------------------------------------------- 64-bit words

  /** r zeros precede the highest one of the 64-bit word a. */
  ghost predicate Leading64(a: nat, r: nat) {
    r <= 63 && Pow2(63 - r) <= a < Pow2(64 - r)
  }

  /** int64.c:711-718 */
  method Clzdi2(a: nat) returns (res: nat)
    requires 0 < a < D
    ensures Leading64(a, res)
  {
    hide And, Leading, Or, Pow2;
    var high, low := a / W, a % W;
    var f := Mask32(high == 0);
    var x := Or(And(high, Xor(W - 1, f)), And(low, f));
    SelectHalf(high, low, high == 0, low, high);
    var c := Clzsi2(x);
    AndMask(32, high == 0);
    res := c + And(32, f);
    LeadingWide(a, high, low, c);
  }

  /** int64.c:703-709 */
  method Ctzdi2(a: nat) returns (res: nat)
    requires 0 < a < D
    ensures Trailing(a, res)
  {
    hide And, Trailing, Or, Pow2;
    var high, low := a / W, a % W;
    var f := Mask32(low == 0);
    var x := Or(And(high, f), And(low, Xor(W - 1, f)));
    SelectHalf(low, high, low == 0, high, low);
    OrCommutes(And(high, f), And(low, Xor(W - 1, f)));
    var c := Ctzsi2(x);
    AndMask(32, low == 0);
    res := c + And(32, f);
    TrailingWide(a, high, low, c);
  }

  lemma SelectHalf(u: nat, v: nat, b: bool, thn: nat, els: nat)
    requires u < W && v < W && thn == v && els == u
    ensures Or(And(u, Xor(W - 1, Mask32(b))), And(v, Mask32(b))) == if b then thn else els
  {
    AndMask(u, b);
    AndMask(u, !b);
    AndMask(v, b);
  }

  lemma LeadingWide(a: nat, high: nat, low: nat, c: nat)
    requires a < D && high == a / W && low == a % W
    requires if high == 0 then Leading(low, c) else Leading(high, c)
    ensures Leading64(a, if high == 0 then c + 32 else c)
  {
    DivModBound(a, W);
    if high > 0 {
      var p := Pow2(31 - c);
      Pow2Values();
      Pow2Add(31 - c, 32);
      assert Pow2(32 - c) == 2 * p;
      MulMono(p, high, W);
      MulMono(high + 1, 2 * p, W);
    }
  }

  lemma TrailingWide(a: nat, high: nat, low: nat, c: nat)
    requires 0 < a < D && high == a / W && low == a % W
    requires c <= 31 && if low == 0 then Trailing(high, c) else Trailing(low, c)
    ensures Trailing(a, if low == 0 then c + 32 else c)
  {
    Pow2Values();
    DivModBound(a, W);
    if low == 0 {
      Pow2Add(32, c);
      DivMul(a, W, Pow2(c));
    } else {
      TrailingLow(a, high, low, c, Pow2(c), Pow2(31 - c));
    }
  }

  lemma Regroup(x: nat, y: nat, z: nat)
    ensures x * (2 * (y * z)) == (2 * (x * y)) * z
  {
    assert x * (y * z) == (x * y) * z;
  }

  lemma TrailingLow(a: nat, high: nat, low: nat, c: nat, p: nat, h: nat)
    requires c <= 31 && p == Pow2(c) && h == Pow2(31 - c) && a == high * W + low && low < W && Trailing(low, c)
    ensures Trailing(a, c)
  {
    hide Pow2;
    Pow2Values();
    Pow2Add(31 - c, c);
    DivModBound(low, p);
    Regroup(high, h, p);
    TrailingSum(a, low, high * h, low / p, p);
  }

  lemma TrailingSum(a: nat, low: nat, k: nat, l: nat, p: nat)
    requires p > 0 && low == l * p && l % 2 == 1 && a == (2 * k) * p + low
    ensures a % p == 0 && (a / p) % 2 == 1
  {
    Sum(2 * k, l, p);
    MulDivMod(a, p, 2 * k + l, 0);
    OddSum(k, l);
  }

  lemma Sum(x: nat, y: nat, p: nat)
    ensures (x + y) * p == x * p + y * p
  {
  }

  lemma OddSum(k: nat, l: nat)
    requires l % 2 == 1
    ensures (2 * k + l) % 2 == 1
  {
  }
}
