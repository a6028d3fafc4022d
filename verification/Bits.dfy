/** Bitwise operations on naturals, bit by bit, and what they mean arithmetically. */
module Bits {

  function Pow2(k: nat): (r: nat)
    ensures r > 0
  {
    if k == 0 then 1 else 2 * Pow2(k - 1)
  }

  function And(a: nat, b: nat): nat
    decreases a
  {
    if a == 0 || b == 0 then 0
    else 2 * And(a / 2, b / 2) + if a % 2 == 1 && b % 2 == 1 then 1 else 0
  }

  function Or(a: nat, b: nat): nat
    decreases a
  {
    if a == 0 then b
    else if b == 0 then a
    else 2 * Or(a / 2, b / 2) + if a % 2 == 1 || b % 2 == 1 then 1 else 0
  }

  function Xor(a: nat, b: nat): nat
    decreases a
  {
    if a == 0 then b
    else if b == 0 then a
    else 2 * Xor(a / 2, b / 2) + if a % 2 != b % 2 then 1 else 0
  }

  // Machine words: W is 2^32, D is 2^64.
  const W := 0x1_0000_0000
  const D := 0x1_0000_0000_0000_0000

  function Shl32(x: nat, k: nat): nat { (x * Pow2(k)) % W }
  function Shr(x: nat, k: nat): nat { DivModBound(x, Pow2(k)); x / Pow2(k) }

  // In C the amount of a 64-bit shift is below 64.
  function Shl64(x: nat, k: nat): nat
    requires k < 64
  {
    (x * Pow2(k)) % D
  }

  function Sub32(x: int, y: int): nat { (x - y) % W }
  function Sub64(x: int, y: int): nat { (x - y) % D }

  /** The two's complement value of a 64-bit word. */
  function Signed64(x: nat): int {
    if x < D / 2 then x else x - D
  }

  /** Arithmetic right shift of a 64-bit word. */
  function Sar64(x: nat, k: nat): nat
    requires k < 64
  {
    (Signed64(x) / Pow2(k)) % D
  }

  // ---------------------------------------------------------------- powers of two

  lemma {:induction false} Pow2Add(j: nat, k: nat)
    ensures Pow2(j + k) == Pow2(j) * Pow2(k)
  {
    if j > 0 {
      Pow2Add(j - 1, k);
      assert Pow2(j + k) == 2 * Pow2(j - 1 + k);
    }
  }

  lemma Pow2Values()
    ensures Pow2(1) == 2 && Pow2(2) == 4 && Pow2(4) == 16 && Pow2(8) == 256 && Pow2(16) == 65536
    ensures Pow2(31) == W / 2 && Pow2(32) == W && Pow2(63) == D / 2 && Pow2(64) == D
  {
    assert Pow2(8) == 256 && Pow2(16) == 65536;
    Pow2Add(16, 16);
    Pow2Add(32, 32);
    assert Pow2(32) == 2 * Pow2(31);
    assert Pow2(64) == 2 * Pow2(63);
  }

  lemma {:induction false} Pow2Monotone(j: nat, k: nat)
    requires j <= k
    ensures Pow2(j) <= Pow2(k)
  {
    if j < k {
      Pow2Monotone(j, k - 1);
    }
  }

  lemma MulMono(x: int, y: int, m: nat)
    requires x <= y
    ensures x * m <= y * m
  {
  }

  lemma Distribute(q: int, b: int, r: int, a: int)
    ensures (q * b + r) * a == q * (a * b) + r * a
  {
  }

  lemma DivModBound(x: nat, m: nat)
    requires m > 0
    ensures x == (x / m) * m + x % m && 0 <= x % m < m && x / m >= 0
  {
  }

  /** Quotient and remainder are unique. */
  lemma MulDivMod(x: nat, m: nat, q: nat, r: nat)
    requires r < m && x == q * m + r
    ensures x / m == q && x % m == r
  {
    DivModBound(x, m);
    var q' := x / m;
    if q' < q {
      MulMono(q' + 1, q, m);
      assert false;
    } else if q' > q {
      MulMono(q + 1, q', m);
      assert false;
    }
  }

  lemma QuotientBelow(x: nat, p: nat, b: nat)
    requires p > 0 && x < b * p
    ensures 0 <= x / p < b
  {
    DivModBound(x, p);
    if x / p >= b {
      MulMono(b, x / p, p);
      assert false;
    }
  }

  lemma QuotientPositive(x: nat, p: nat)
    requires 0 < p <= x
    ensures x / p >= 1 && (x / p) * p >= p
  {
    DivModBound(x, p);
    if x / p <= 0 {
      MulMono(x / p, 0, p);
      assert false;
    }
    MulMono(1, x / p, p);
  }

  /** Dividing by a product is dividing twice. */
  lemma DivMul(x: nat, a: nat, b: nat)
    requires a > 0 && b > 0
    ensures a * b > 0 && x / (a * b) == (x / a) / b
    ensures x % (a * b) == ((x / a) % b) * a + x % a
  {
    DivModBound(x, a);
    var q, r := x / a, x % a;
    DivModBound(q, b);
    var q', r' := q / b, q % b;
    Distribute(q', b, r', a);
    MulMono(r' + 1, b, a);
    MulDivMod(x, a * b, q', r' * a + r);
  }

  // ---------------------------------------------------------------- and, or, xor

  lemma HalvesAdd(a: nat, b: nat)
    requires a % 2 == 0
    ensures a + b == 2 * (a / 2 + b / 2) + b % 2
  {
  }

  lemma EvenMultiple(a: nat, p: nat)
    requires p > 0 && a % (2 * p) == 0
    ensures a % 2 == 0 && (a / 2) % p == 0
  {
    DivMul(a, 2, p);
  }

  /** Or adds when the bits cannot meet. */
  lemma {:induction false} OrDisjoint(a: nat, b: nat, k: nat, p: nat)
    requires p == Pow2(k) && a % p == 0 && b < p
    ensures Or(a, b) == a + b
    decreases k
  {
    if k > 0 && a > 0 && b > 0 {
      EvenMultiple(a, Pow2(k - 1));
      OrDisjoint(a / 2, b / 2, k - 1, Pow2(k - 1));
      HalvesAdd(a, b);
    }
  }

  lemma ModDouble(x: nat, p: nat)
    requires p > 0
    ensures x % (2 * p) == 2 * ((x / 2) % p) + x % 2
  {
    DivMul(x, 2, p);
  }

  lemma HalfMask(p: nat)
    requires p > 0
    ensures (2 * p - 1) / 2 == p - 1 && (2 * p - 1) % 2 == 1
  {
  }

  lemma AndOddStep(a: nat, b: nat)
    requires b % 2 == 1
    ensures And(a, b) == 2 * And(a / 2, b / 2) + a % 2
  {
  }

  /** Masking with k ones keeps the remainder by 2^k. */
  lemma {:induction false} AndLowMask(x: nat, k: nat, p: nat)
    requires p == Pow2(k)
    ensures And(x, p - 1) == x % p
    decreases k
  {
    if x == 0 {
      MulDivMod(x, p, 0, 0);
    } else if k > 0 {
      var h := Pow2(k - 1);
      AndLowMask(x / 2, k - 1, h);
      ModDouble(x, h);
      HalfMask(h);
      AndOddStep(x, p - 1);
    }
  }

  lemma AndEvenStep(a: nat, b: nat)
    ensures And(a, 2 * b) == 2 * And(a / 2, b)
  {
    EvenHalf(b);
    if a != 0 && b != 0 {
      assert And(a, 2 * b) == 2 * And(a / 2, (2 * b) / 2) + if a % 2 == 1 && (2 * b) % 2 == 1 then 1 else 0;
    }
  }

  lemma EvenHalf(b: nat)
    ensures (2 * b) / 2 == b && (2 * b) % 2 == 0
  {
  }

  lemma DoubleMul(m: nat, h: nat)
    ensures m * (2 * h) == 2 * (m * h)
  {
  }

  /** A mask M shifted up by k looks at the quotient q of x by 2^k. */
  lemma {:induction false} AndHighMask(x: nat, m: nat, k: nat, p: nat, q: nat, M: nat)
    requires p == Pow2(k) && q == x / p && M == m * p
    ensures And(x, M) == And(q, m) * p
    decreases k
  {
    hide And;
    if k > 0 {
      var h, M' := Pow2(k - 1), m * Pow2(k - 1);
      DivMul(x, 2, h);
      assert M' >= 0;
      AndHighMask(x / 2, m, k - 1, h, q, M');
      DoubleMul(m, h);
      AndEvenStep(x, M');
      DoubleMul(And(q, m), h);
    }
  }

  /** Complement is exclusive or with ones. */
  lemma {:induction false} XorOnes(x: nat, k: nat, p: nat)
    requires p == Pow2(k) && x < p
    ensures Xor(x, p - 1) == p - 1 - x
    decreases k
  {
    if k > 0 {
      var h := Pow2(k - 1);
      XorOnes(x / 2, k - 1, h);
      HalfMask(h);
    }
  }

  lemma AndOnes(x: nat, k: nat, p: nat)
    requires p == Pow2(k) && x < p
    ensures And(x, p - 1) == x
  {
    hide And, Pow2;
    AndLowMask(x, k, p);
    MulDivMod(x, p, 0, x);
  }

  lemma {:induction false} OrCommutes(a: nat, b: nat)
    ensures Or(a, b) == Or(b, a)
  {
    if a > 0 && b > 0 {
      OrCommutes(a / 2, b / 2);
    }
  }

  lemma {:induction false} AndCommutes(a: nat, b: nat)
    ensures And(a, b) == And(b, a)
  {
    if a > 0 && b > 0 {
      AndCommutes(a / 2, b / 2);
    }
  }

  /** d & (d - 1) clears the lowest set bit, so it is zero exactly for powers of two. */
  lemma {:induction false} LowestBitCleared(d: nat, k: nat, p: nat)
    requires p == Pow2(k) && d % p == 0 && (d / p) % 2 == 1
    ensures d >= p && And(d, d - 1) == d - p
    decreases k
  {
    hide And;
    if k == 0 {
      MulDivMod(d, 1, d, 0);
      OddMask(d);
    } else {
      var h := Pow2(k - 1);
      HalfMultiple(d, h);
      LowestBitCleared(d / 2, k - 1, h);
      LowestStep(d, h);
    }
  }

  lemma OddMask(d: nat)
    requires d % 2 == 1
    ensures And(d, d - 1) == d - 1
  {
    hide And;
    var h := d / 2;
    assert d == 2 * h + 1;
    AndOddEven(h);
    AndSelf(h);
  }

  lemma AndOddEven(h: nat)
    ensures And(2 * h + 1, 2 * h) == 2 * And(h, h)
  {
    assert (2 * h + 1) / 2 == h && (2 * h) / 2 == h;
  }

  lemma HalfMultiple(d: nat, h: nat)
    requires h > 0 && d % (2 * h) == 0 && (d / (2 * h)) % 2 == 1
    ensures d % 2 == 0 && (d / 2) % h == 0 && (d / 2) / h == d / (2 * h) && d / 2 >= h
  {
    DivModBound(d, 2 * h);
    var q := d / (2 * h);
    assert d == (q * h) * 2;
    MulDivMod(d, 2, q * h, 0);
    MulDivMod(q * h, h, q, 0);
    MulMono(1, q, h);
  }

  lemma LowestStep(d: nat, h: nat)
    requires d % 2 == 0 && d / 2 >= h > 0 && And(d / 2, d / 2 - 1) == d / 2 - h
    ensures d >= 2 * h && And(d, d - 1) == d - 2 * h
  {
    hide And;
    HalfMask(d / 2);
    EvenHalf(d / 2);
    AndEvenOdd(d, d - 1);
  }

  lemma AndEvenOdd(a: nat, b: nat)
    requires a % 2 == 0
    ensures And(a, b) == 2 * And(a / 2, b / 2)
  {
  }

  lemma {:induction false} AndSelf(x: nat)
    ensures And(x, x) == x
  {
    if x > 0 {
      AndSelf(x / 2);
    }
  }
}
