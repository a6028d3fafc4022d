/** Signed 64-bit division (int64.c): sign masks around the unsigned division. */
module SignedDivision {
  import opened Bits
  import Division

  function Abs(x: int): nat {
    if x < 0 then -x else x
  }

  function NegatedIf(neg: bool, x: int): int {
    if neg then -x else x
  }

  /** C's division: the quotient is rounded toward zero, the remainder has the dividend's sign. */
  ghost predicate Truncated(a: int, b: int, q: int, r: int) {
    a == q * b + r && Abs(r) < Abs(b) && (r > 0 ==> a > 0) && (r < 0 ==> a < 0)
  }

  lemma {:induction false} TruncatedUnique(a: int, b: int, q: int, r: int, q': int, r': int)
    requires b != 0 && Truncated(a, b, q, r) && Truncated(a, b, q', r')
    ensures q == q' && r == r'
  {
    Difference(a, b, q, r, q', r');
    RemaindersClose(a, b, r, r');
    hide Truncated;
    ScaleBound(q - q', b);
  }

  lemma Difference(a: int, b: int, q: int, r: int, q': int, r': int)
    requires a == q * b + r && a == q' * b + r'
    ensures (q - q') * b == r' - r
  {
    assert (q - q') * b == q * b - q' * b;
  }

  lemma RemaindersClose(a: int, b: int, r: int, r': int)
    requires Abs(r) < Abs(b) && (r > 0 ==> a > 0) && (r < 0 ==> a < 0)
    requires Abs(r') < Abs(b) && (r' > 0 ==> a > 0) && (r' < 0 ==> a < 0)
    ensures Abs(r' - r) < Abs(b)
  {
  }

  lemma ScaleBound(d: int, b: int)
    ensures d == 0 ==> d * b == 0
    ensures d != 0 ==> Abs(d * b) >= Abs(b)
  {
    var m, n := Abs(d), Abs(b);
    assert Abs(d * b) == m * n by {
      assert (-d) * b == d * (-b) == -(d * b) && (-d) * (-b) == d * b;
    }
    if d != 0 {
      MulMono(1, m, n);
    }
  }

  /** The word a value is stored in. */
  function Word64(x: int): nat {
    x % D
  }

  lemma SignedWord(x: int)
    requires -(D / 2) <= x < D / 2
    ensures Signed64(Word64(x)) == x
  {
  }

  /** a >> 63 is all ones for a negative word and zero otherwise. */
  lemma SignMask(a: nat)
    requires a < D
    ensures Sar64(a, 63) == if Signed64(a) < 0 then D - 1 else 0
  {
    Pow2Values();
    assert Signed64(a) < 0 ==> Signed64(a) / (D / 2) == -1;
  }

  /** (x ^ s) - s negates x when s is all ones and keeps it when s is zero. */
  lemma NegateIf(x: nat, neg: bool)
    requires x < D
    ensures var s := if neg then D - 1 else 0; Sub64(Xor(x, s), s) == Word64(NegatedIf(neg, x))
  {
    Pow2Values();
    XorOnes(x, 64, D);
    assert Xor(x, 0) == x;
  }

  lemma XorMasks(m: bool, n: bool)
    ensures Xor(if m then D - 1 else 0, if n then D - 1 else 0) == if m != n then D - 1 else 0
  {
    Pow2Values();
    XorOnes(D - 1, 64, D);
  }

  lemma SignedProducts(q: int, b: int)
    ensures q * (-b) == -(q * b) && (-q) * b == -(q * b)
  {
  }

  /** Unsigned quotient and remainder of the magnitudes, with the signs put back, are the truncated ones. */
  lemma MagnitudesTruncate(a: int, b: int, q: nat, r: nat)
    requires b != 0 && q == Abs(a) / Abs(b) && r == Abs(a) % Abs(b)
    ensures Truncated(a, b, NegatedIf((a < 0) != (b < 0), q), NegatedIf(a < 0, r))
  {
    DivModBound(Abs(a), Abs(b));
    SignedProducts(q, b);
  }

  ghost function Quotient(a: int, b: int): int
    requires b != 0
  {
    NegatedIf((a < 0) != (b < 0), Abs(a) / Abs(b))
  }

  ghost function Remainder(a: int, b: int): int
    requires b != 0
  {
    NegatedIf(a < 0, Abs(a) % Abs(b))
  }

  lemma QuotientRemainderTruncate(a: int, b: int)
    requires b != 0
    ensures Truncated(a, b, Quotient(a, b), Remainder(a, b))
  {
    DivModBound(Abs(a), Abs(b));
    MagnitudesTruncate(a, b, Abs(a) / Abs(b), Abs(a) % Abs(b));
  }

  /** The quotient fits a word, except for the most negative dividend divided by -1. */
  lemma QuotientFits(a: int, b: int)
    requires b != 0 && -(D / 2) <= a < D / 2 && -(D / 2) <= b < D / 2
    ensures -(D / 2) <= Quotient(a, b) < D / 2 <==> !(a == -(D / 2) && b == -1)
    ensures a == -(D / 2) && b == -1 ==> Quotient(a, b) == D / 2
    ensures -(D / 2) < Remainder(a, b) < D / 2
  {
    var q := Abs(a) / Abs(b);
    DivModBound(Abs(a), Abs(b));
    MulMono(1, Abs(b), q);
    assert q * Abs(b) == Abs(b) * q;
    if a == -(D / 2) && b == -1 {
      MulDivMod(Abs(a), 1, Abs(a), 0);
    } else if Abs(a) == D / 2 && b < 0 {
      MulMono(2, Abs(b), q);
    }
  }

  lemma MagnitudeWord(a: nat)
    requires a < D
    ensures Word64(NegatedIf(Signed64(a) < 0, a)) == Abs(Signed64(a)) <= D / 2
  {
  }

  /** int64.c:355-365. For INT64_MIN / -1 the quotient 2^63 wraps around to INT64_MIN. */
  method Divdi3(a: nat, b: nat) returns (res: nat)
    requires a < D && 0 < b < D
    ensures res == Word64(Quotient(Signed64(a), Signed64(b)))
  {
    hide Xor, Sub64, Sar64, Signed64, Word64;
    var sa, sb := Sar64(a, 63), Sar64(b, 63);
    SignMask(a);
    SignMask(b);
    NegateIf(a, Signed64(a) < 0);
    NegateIf(b, Signed64(b) < 0);
    MagnitudeWord(a);
    MagnitudeWord(b);
    NonZero(b);
    var a', b' := Sub64(Xor(a, sa), sa), Sub64(Xor(b, sb), sb);
    var s := Xor(sa, sb);
    XorMasks(Signed64(a) < 0, Signed64(b) < 0);
    var q, r := Division.Udivmoddi4(a', b');
    Division.DivideShrinks(a', b');
    NegateIf(q, (Signed64(a) < 0) != (Signed64(b) < 0));
    res := Sub64(Xor(q, s), s);
  }

  lemma NonZero(b: nat)
    requires 0 < b < D
    ensures Signed64(b) != 0 && -(D / 2) <= Signed64(b) < D / 2
  {
  }

  /** int64.c:380-391 */
  method Moddi3(a: nat, b: nat) returns (res: nat)
    requires a < D && 0 < b < D
    ensures res == Word64(Remainder(Signed64(a), Signed64(b)))
  {
    hide Xor, Sub64, Sar64, Signed64, Word64;
    var s := Sar64(b, 63);
    SignMask(b);
    NegateIf(b, Signed64(b) < 0);
    MagnitudeWord(b);
    NonZero(b);
    var b' := Sub64(Xor(b, s), s);
    s := Sar64(a, 63);
    SignMask(a);
    NegateIf(a, Signed64(a) < 0);
    MagnitudeWord(a);
    var a' := Sub64(Xor(a, s), s);
    var q, r := Division.Udivmoddi4(a', b');
    DivModBound(a', b');
    NegateIf(r, Signed64(a) < 0);
    res := Sub64(Xor(r, s), s);
  }

  /** int64.c:369-375: the remainder from the quotient, modulo 2^64. */
  method Divmoddi4(a: nat, b: nat) returns (d: nat, rem: nat)
    requires a < D && 0 < b < D
    ensures d == Word64(Quotient(Signed64(a), Signed64(b)))
    ensures rem == Word64(Remainder(Signed64(a), Signed64(b)))
  {
    hide Quotient, Remainder, Signed64;
    NonZero(b);
    d := Divdi3(a, b);
    rem := Sub64(a, (d * b) % D);
    QuotientRemainderTruncate(Signed64(a), Signed64(b));
    RemainderWord(a, b, d, Signed64(a), Signed64(b), Quotient(Signed64(a), Signed64(b)),
                  Remainder(Signed64(a), Signed64(b)));
  }

  lemma RemainderWord(a: nat, b: nat, d: nat, A: int, B: int, Q: int, R: int)
    requires a < D && b < D && A == Signed64(a) && B == Signed64(b) && d == Word64(Q) && A == Q * B + R
    ensures Sub64(a, (d * b) % D) == Word64(R)
  {
    var i, j, k := (a - A) / D, (b - B) / D, (d - Q) / D;
    assert a == A + i * D && b == B + j * D;
    assert d == Q + k * D by { assert d == Q % D; }
    var p := d * b;
    var m := k * B + Q * j + k * j * D;
    assert p == Q * B + m * D by {
      ProductWithCarries(Q, B, j, k);
    }
    var e := p / D;
    assert p == e * D + p % D;
    assert a - p % D == R + (i - m + e) * D by {
      assert a - p % D == A + i * D - p + e * D;
      assert (i - m + e) * D == i * D - m * D + e * D;
    }
    SameWord(a - p % D, R, i - m + e);
  }

  lemma ProductWithCarries(Q: int, B: int, j: int, k: int)
    ensures (Q + k * D) * (B + j * D) == Q * B + (k * B + Q * j + k * j * D) * D
  {
    assert (Q + k * D) * (B + j * D) == Q * B + Q * (j * D) + (k * D) * B + (k * D) * (j * D);
    assert Q * (j * D) == (Q * j) * D && (k * D) * B == (k * B) * D && (k * D) * (j * D) == (k * j * D) * D;
  }

  lemma SameWord(x: int, y: int, k: int)
    requires x == y + k * D
    ensures x % D == y % D
  {
    var q := y / D;
    assert x == (q + k) * D + y % D;
  }

  /** What the three results mean as signed numbers. */
  lemma SignedResults(a: nat, b: nat, d: nat, rem: nat)
    requires a < D && 0 < b < D
    requires Signed64(b) != 0
    requires d == Word64(Quotient(Signed64(a), Signed64(b))) && rem == Word64(Remainder(Signed64(a), Signed64(b)))
    ensures Truncated(Signed64(a), Signed64(b), Signed64(d), Signed64(rem))
            <==> !(a == D / 2 && b == D - 1)
    ensures a == D / 2 && b == D - 1 ==> d == D / 2 && rem == 0
  {
    hide Quotient, Remainder, Truncated;
    var A, B := Signed64(a), Signed64(b);
    QuotientRemainderTruncate(A, B);
    QuotientFits(A, B);
    SignedWord(Remainder(A, B));
    if a == D / 2 && b == D - 1 {
      MinByMinusOne(Remainder(A, B));
    } else {
      SignedWord(Quotient(A, B));
    }
  }

  lemma MinByMinusOne(r: int)
    requires Truncated(-(D / 2), -1, D / 2, r)
    ensures r == 0 && !Truncated(-(D / 2), -1, -(D / 2), 0)
  {
  }
}
