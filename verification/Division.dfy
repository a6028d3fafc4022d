/** 64-bit division on a 32-bit machine (int64.c): shift-subtract with a branchless comparison. */
module Division {
  import opened Bits
  import opened CountZeros

  // ---------------------------------------------------------------- double words

  /** Shifting a pair of words left by one, letting a bit in below. */
  lemma ShiftIn(x: nat, bit: nat)
    requires x < W && bit <= 1
    ensures Or(Shl32(x, 1), bit) == (2 * x + bit) % W < W
  {
    assert Pow2(1) == 2;
    OrDisjoint(Shl32(x, 1), bit, 1, 2);
  }

  lemma TopBit(x: nat)
    requires x < W
    ensures Shr(x, 31) == x / (W / 2) <= 1
  {
    Pow2Values();
  }

  /** The two words of 2 * (h:l) + bit. */
  lemma DoubleWord(h: nat, l: nat, bit: nat)
    requires h < W && l < W && bit <= 1
    ensures ((2 * h + l / (W / 2)) % W) * W + (2 * l + bit) % W == (2 * (h * W + l) + bit) % D
    ensures (h * W + l) / (D / 2) == h / (W / 2)
  {
    var hb, lb := h / (W / 2), l / (W / 2);
    var h', l' := h - hb * (W / 2), l - lb * (W / 2);
    assert hb <= 1 && lb <= 1 && 0 <= h' < W / 2 && 0 <= l' < W / 2;
    MulDivMod(2 * h + lb, W, hb, 2 * h' + lb);
    MulDivMod(2 * l + bit, W, lb, 2 * l' + bit);
    MulDivMod(2 * (h * W + l) + bit, D, hb, (2 * h' + lb) * W + (2 * l' + bit));
    MulDivMod(h * W + l, D / 2, hb, h' * W + l);
  }

  /** One shift of the 128-bit pair r:q, int64.c:601-604. */
  lemma ShiftPair(rh: nat, rl: nat, qh: nat, ql: nat, carry: nat)
    requires rh < W && rl < W && qh < W && ql < W && carry <= 1
    ensures Or(Shl32(rh, 1), Shr(rl, 31)) < W && Or(Shl32(rl, 1), Shr(qh, 31)) < W
    ensures Or(Shl32(qh, 1), Shr(ql, 31)) < W && Or(Shl32(ql, 1), carry) < W
    ensures Or(Shl32(rh, 1), Shr(rl, 31)) * W + Or(Shl32(rl, 1), Shr(qh, 31))
         == (2 * (rh * W + rl) + (qh * W + ql) / (D / 2)) % D
    ensures Or(Shl32(qh, 1), Shr(ql, 31)) * W + Or(Shl32(ql, 1), carry) == (2 * (qh * W + ql) + carry) % D
  {
    hide Or, Shl32, Shr;
    TopBit(rl);
    TopBit(qh);
    TopBit(ql);
    ShiftIn(rh, Shr(rl, 31));
    ShiftIn(rl, Shr(qh, 31));
    ShiftIn(qh, Shr(ql, 31));
    ShiftIn(ql, carry);
    DoubleWord(rh, rl, Shr(qh, 31));
    DoubleWord(qh, ql, carry);
  }

  // ---------------------------------------------------------------- the branchless subtraction

  /** The sign of d - r - 1, spread over the word: all ones when r >= d. int64.c:612 */
  function Sign(d: nat, r: nat): nat {
    Sar64(Sub64(Sub64(d, r), 1), 63)
  }

  lemma SignDecides(d: nat, r: nat)
    requires 0 < d < D && r < D && r < 2 * d && (d > D / 2 ==> r >= d - D / 2)
    ensures Sign(d, r) == if r >= d then D - 1 else 0
  {
    hide Pow2;
    Pow2Values();
    Difference(d, r);
    var x := Sub64(Sub64(d, r), 1);
    if r >= d {
      assert x >= D / 2 && Signed64(x) == -(r - d + 1);
      MinusOneOver(r - d + 1);
    } else {
      MulDivMod(x, D / 2, 0, x);
    }
  }

  lemma Difference(d: nat, r: nat)
    requires 0 < d < D && r < D && r < 2 * d && (d > D / 2 ==> r >= d - D / 2)
    ensures Sub64(Sub64(d, r), 1) == if r >= d then D - (r - d + 1) else d - r - 1
  {
    assert (d - r) % D == if r > d then d - r + D else d - r;
  }

  lemma MinusOneOver(y: int)
    requires 0 < y <= D / 2
    ensures (0 - y) / (D / 2) == -1 && (-1) % D == D - 1
  {
  }

  lemma SubtractStep(d: nat, r: nat)
    requires 0 < d < D && r < D && r < 2 * d && (d > D / 2 ==> r >= d - D / 2)
    ensures And(Sign(d, r), 1) == if r >= d then 1 else 0
    ensures Sub64(r, And(d, Sign(d, r))) == if r >= d then r - d else r
  {
    hide Sign, And;
    SignDecides(d, r);
    Pow2Values();
    AndLowMask(Sign(d, r), 1, 2);
    AndOnes(d, 64, D);
    AndZero(d);
  }

  lemma AndZero(x: nat)
    ensures And(x, 0) == 0
  {
  }

  // ---------------------------------------------------------------- the loop

  /** With k bits of a still to process: they sit on top of q, quotient bits (less the carry) below them. */
  ghost predicate DivState(a: nat, d: nat, k: nat, q: nat, r: nat, carry: nat, qd: nat) {
    && k <= 63 && a < D && 0 < d < D && carry <= 1 && r < d
    && q == (a % Pow2(k)) * Pow2(64 - k) + qd && qd < Pow2(64 - k) && q < D
    && (2 * qd + carry) * d + r == a / Pow2(k)
    && (d > D / 2 ==> a >= D / 2 && (k == 0 || (k == 1 && qd == 0 && carry == 0)))
  }

  lemma BitSplit(a: nat, p: nat, m: nat, qd: nat)
    requires p > 0 && m > 0 && p * m == D / 2 && qd < m
    ensures var B := a % (2 * p);
            var bit := B / p;
            && bit <= 1 && a / p == 2 * (a / (2 * p)) + bit
            && B * m + qd == bit * (D / 2) + ((a % p) * m + qd) && 0 <= (a % p) * m + qd < D / 2
  {
    var A, B := a / (2 * p), a % (2 * p);
    DivModBound(a, 2 * p);
    DivModBound(B, p);
    var bit := B / p;
    QuotientBelow(B, p, 2);
    HighBit(a, A, B, bit, B % p, p);
    Distribute(bit, p, B % p, m);
    MulMono(B % p + 1, p, m);
    Distribute(1, B % p, 1, m);
  }

  lemma HighBit(a: nat, A: nat, B: nat, bit: nat, low: nat, p: nat)
    requires p > 0 && a == A * (2 * p) + B && B == bit * p + low && low < p
    ensures a / p == 2 * A + bit && a % p == low
  {
    Swap(A, p);
    assert (2 * A + bit) * p == (2 * A) * p + bit * p;
    MulDivMod(a, p, 2 * A + bit, low);
  }

  lemma Swap(x: nat, p: nat)
    ensures x * (2 * p) == x * (p * 2) == (2 * x) * p
  {
  }

  /** The low k - 1 bits of a move up by one place, making room for the next quotient bit. */
  lemma ShiftQuotient(a: nat, p: nat, m: nat, q: nat, carry: nat, qd: nat)
    requires p > 0 && p * m == D / 2 && qd < m && q == (a % (2 * p)) * m + qd && carry <= 1
    ensures 0 <= q / (D / 2) == (a % (2 * p)) / p <= 1
    ensures a / p == 2 * (a / (2 * p)) + q / (D / 2)
    ensures (2 * q + carry) % D == (a % p) * (2 * m) + (2 * qd + carry)
  {
    BitSplit(a, p, m, qd);
    var bit, low := (a % (2 * p)) / p, (a % p) * m + qd;
    MulDivMod(q, D / 2, bit, low);
    assert 2 * q + carry == bit * D + (2 * low + carry);
    MulDivMod(2 * q + carry, D, bit, 2 * low + carry);
    Swap(a % p, m);
    Twofold(a % p, m, qd, carry);
  }

  lemma Twofold(x: nat, m: nat, qd: nat, carry: nat)
    ensures 2 * (x * m + qd) + carry == x * (2 * m) + (2 * qd + carry)
  {
    Swap(x, m);
  }

  lemma DivStep(a: nat, d: nat, k: nat, q: nat, r: nat, carry: nat, qd: nat)
    requires k > 0 && DivState(a, d, k, q, r, carry, qd)
    ensures var r2 := (2 * r + q / (D / 2)) % D;
            && r2 < 2 * d && (d > D / 2 ==> r2 >= d - D / 2)
            && DivState(a, d, k - 1, (2 * q + carry) % D, if r2 >= d then r2 - d else r2,
                        if r2 >= d then 1 else 0, 2 * qd + carry)
  {
    var p, m := Pow2(k - 1), Pow2(64 - k);
    PowerPair(k, p, m);
    ShiftQuotient(a, p, m, q, carry, qd);
    DivideShrinks(a, 2 * p);
    DivideShrinks(a, p);
    var bit: nat, Q: nat := q / (D / 2), 2 * qd + carry;
    var A: nat, A': nat := a / (2 * p), a / p;
    QuotientStep(Q, d, r, bit, A, A');
    NewRemainder(a, d, k, Q, r, bit, p);
  }

  lemma PowerPair(k: nat, p: nat, m: nat)
    requires 1 <= k <= 63 && p == Pow2(k - 1) && m == Pow2(64 - k)
    ensures Pow2(k) == 2 * p && Pow2(65 - k) == 2 * m && p * m == D / 2
  {
    Pow2Add(k - 1, 64 - k);
    Pow2Values();
  }

  lemma DivideShrinks(a: nat, p: nat)
    requires p > 0
    ensures 0 <= a / p <= a
  {
    DivModBound(a, p);
    MulMono(1, p, a / p);
  }

  lemma QuotientStep(Q: nat, d: nat, r: nat, bit: nat, A: nat, A': nat)
    requires Q * d + r == A && A' == 2 * A + bit
    ensures (2 * Q) * d + (2 * r + bit) == A'
    ensures (2 * Q + 1) * d + (2 * r + bit - d) == A'
    ensures 2 * r + bit <= A'
  {
    Distribute(2, Q, 0, d);
    Distribute(1, 2 * Q, 1, d);
    assert Q * d >= 0;
  }

  lemma NewRemainder(a: nat, d: nat, k: nat, Q: nat, r: nat, bit: nat, p: nat)
    requires k > 0 && a < D && r < d < D && bit <= 1 && p > 0 && p == Pow2(k - 1)
    requires 2 * r + bit <= a / p <= a && (2 * Q) * d + (2 * r + bit) == a / p
    requires d > D / 2 ==> a >= D / 2 && k == 1 && Q == 0
    ensures (2 * r + bit) % D == 2 * r + bit < 2 * d
    ensures d > D / 2 ==> 2 * r + bit >= d - D / 2
  {
    if d > D / 2 {
      assert p == 1;
      MulDivMod(a, p, a, 0);
      var z := 2 * Q;
      assert z == 0 && z * d == 0;
    }
  }

  /** What the initial shifts must establish: q = a << (64 - sr) and r = a >> sr. */
  ghost predicate Split(a: nat, sr: nat, qh: nat, ql: nat, rh: nat, rl: nat) {
    && sr <= 64 && qh < W && ql < W && rh < W && rl < W
    && qh * W + ql == (a % Pow2(sr)) * Pow2(64 - sr) && rh * W + rl == a / Pow2(sr)
  }

  /** int64.c:597-620 */
  method ShiftSubtract(a: nat, d: nat, sr0: nat, qh0: nat, ql0: nat, rh0: nat, rl0: nat) returns (q: nat, rem: nat)
    requires a < D && 0 < d < D && 1 <= sr0 <= 63 && Split(a, sr0, qh0, ql0, rh0, rl0)
    requires a / Pow2(sr0) < d && (d > D / 2 ==> a >= D / 2 && sr0 == 1)
    ensures q == a / d && rem == a % d
  {
    hide Or, And, Shl32, Shr, Sub64, Shl64, Pow2, DivState, Sign, Split;
    var qh: nat, ql: nat, rh: nat, rl: nat := qh0, ql0, rh0, rl0;
    var sr: nat, carry: nat := sr0, 0;
    ghost var qd: nat := 0;
    DivStart(a, d, sr0, qh, ql, rh, rl);
    while sr > 0
      invariant sr <= sr0 && qh < W && ql < W && rh < W && rl < W && carry <= 1
      invariant DivState(a, d, sr, qh * W + ql, rh * W + rl, carry, qd)
    {
      ShiftPair(rh, rl, qh, ql, carry);
      DivStep(a, d, sr, qh * W + ql, rh * W + rl, carry, qd);
      qd := 2 * qd + carry;
      rh := Or(Shl32(rh, 1), Shr(rl, 31));
      rl := Or(Shl32(rl, 1), Shr(qh, 31));
      qh := Or(Shl32(qh, 1), Shr(ql, 31));
      ql := Or(Shl32(ql, 1), carry);
      var r := rh * W + rl;
      SubtractStep(d, r);
      var s := Sign(d, r);
      carry := And(s, 1);
      r := Sub64(r, And(d, s));
      rh, rl := r / W, r % W;
      sr := sr - 1;
    }
    DivOver(a, d, qh * W + ql, rh * W + rl, carry, qd);
    q := Or(Shl64(qh * W + ql, 1), carry);
    rem := rh * W + rl;
  }

  lemma DivStart(a: nat, d: nat, sr: nat, qh: nat, ql: nat, rh: nat, rl: nat)
    requires a < D && 0 < d < D && 1 <= sr <= 63 && Split(a, sr, qh, ql, rh, rl)
    requires a / Pow2(sr) < d && (d > D / 2 ==> a >= D / 2 && sr == 1)
    ensures qh < W && ql < W && rh < W && rl < W
    ensures DivState(a, d, sr, qh * W + ql, rh * W + rl, 0, 0)
  {
  }

  lemma DivOver(a: nat, d: nat, q: nat, r: nat, carry: nat, qd: nat)
    requires DivState(a, d, 0, q, r, carry, qd)
    ensures Or(Shl64(q, 1), carry) == a / d && r == a % d
  {
    hide DivState, Or, Shl64, Pow2;
    var Q := 2 * qd + carry;
    DivOverState(a, d, q, r, carry, qd);
    QuotientFits(a, d, Q, r);
    MulDivMod(a, d, Q, r);
    ShiftIn64(q, carry);
  }

  lemma QuotientFits(a: nat, d: nat, q: nat, r: nat)
    requires d > 0 && a == q * d + r
    ensures q <= a
  {
    assert q * d == d * q;
    MulMono(1, d, q);
  }

  lemma DivOverState(a: nat, d: nat, q: nat, r: nat, carry: nat, qd: nat)
    requires DivState(a, d, 0, q, r, carry, qd)
    ensures q == qd && a == (2 * qd + carry) * d + r && a < D && r < d && carry <= 1
  {
    Pow2Values();
    MulDivMod(a, 1, a, 0);
  }

  lemma ShiftIn64(x: nat, bit: nat)
    requires 2 * x + bit < D && bit <= 1
    ensures Or(Shl64(x, 1), bit) == 2 * x + bit
  {
    assert Pow2(1) == 2;
    OrDisjoint(Shl64(x, 1), bit, 1, 2);
  }

  // ---------------------------------------------------------------- the initial shifts

  /** Shifting left by m's exponent keeps the part of x below p. */
  lemma ShlKeeps(x: nat, p: nat, m: nat)
    requires p > 0 && m > 0 && p * m == W && x < W
    ensures (x * m) % W == (x % p) * m < W && x * m == (x / p) * W + (x % p) * m
    ensures x / p < m
  {
    DivModBound(x, p);
    Distribute(x / p, p, x % p, m);
    MulMono(x % p + 1, p, m);
    assert x * m == (x / p) * (m * p) + (x % p) * m;
    MulDivMod(x * m, W, x / p, (x % p) * m);
    if x / p >= m {
      MulMono(m, x / p, p);
      assert false;
    }
  }

  /** x shifted left, with y's high part let in below. */
  lemma JoinWords(x: nat, y: nat, k: nat, p: nat, m: nat)
    requires k <= 32 && p == Pow2(32 - k) && m == Pow2(k) && x < W && y < W
    ensures p * m == W
    ensures Shl32(x, k) == (x % p) * m && Shr(y, 32 - k) == y / p
    ensures Or(Shl32(x, k), Shr(y, 32 - k)) == (x % p) * m + y / p < W
  {
    hide Or, Pow2;
    Pow2Add(32 - k, k);
    Pow2Values();
    ShlKeeps(x, p, m);
    ShlKeeps(y, p, m);
    DivModBound(x, p);
    DisjointParts(x % p, y / p, k, p, m);
  }

  lemma DisjointParts(u: nat, v: nat, k: nat, p: nat, m: nat)
    requires u < p && v < m && p * m == W && m == Pow2(k)
    ensures 0 <= u * m && Or(u * m, v) == u * m + v < W
  {
    hide Or, Pow2;
    var um: int := u * m;
    assert (u + 1) * m == um + m;
    MulMono(u + 1, p, m);
    MulMono(0, u, m);
    MulDivMod(um, m, u, 0);
    OrDisjoint(um, v, k, m);
  }

  lemma QuotientWords(nh: nat, nl: nat, p: nat, m: nat)
    requires p > 0 && m > 0 && p * m == W && nh < W && nl < W
    ensures (nh * W + nl) / p == (nh / p) * W + ((nh % p) * m + nl / p)
    ensures (nh * W + nl) % p == nl % p
  {
    DivModBound(nh, p);
    DivModBound(nl, p);
    var q := (nh / p) * W + ((nh % p) * m + nl / p);
    assert q * p == nh * W + (nl / p) * p by {
      Distribute(nh / p, W, (nh % p) * m + nl / p, p);
      Distribute(nh % p, m, nl / p, p);
      Distribute(nh / p, p, nh % p, W);
      assert m * p == W && (nh / p) * (W * p) == (nh / p) * (p * W);
    }
    MulDivMod(nh * W + nl, p, q, nl % p);
  }

  /** int64.c:503-506 and 585-587: 1 <= sr <= 31. */
  method SplitBelow(nh: nat, nl: nat, sr: nat) returns (qh: nat, ql: nat, rh: nat, rl: nat)
    requires nh < W && nl < W && 1 <= sr <= 31
    ensures Split(nh * W + nl, sr, qh, ql, rh, rl)
  {
    hide Or, Shl32, Shr, Split;
    ql := 0;
    qh := Shl32(nl, 32 - sr);
    rh := Shr(nh, sr);
    rl := Or(Shl32(nh, 32 - sr), Shr(nl, sr));
    SplitBelowWords(nh, nl, sr, Pow2(sr), Pow2(32 - sr));
  }

  lemma SplitBelowWords(nh: nat, nl: nat, sr: nat, p: nat, m: nat)
    requires nh < W && nl < W && 1 <= sr <= 31 && p == Pow2(sr) && m == Pow2(32 - sr)
    ensures Split(nh * W + nl, sr, Shl32(nl, 32 - sr), 0, Shr(nh, sr), Or(Shl32(nh, 32 - sr), Shr(nl, sr)))
  {
    hide Or, Shl32, Shr, Pow2;
    JoinWords(nl, nh, 32 - sr, p, m);
    JoinWords(nh, nl, 32 - sr, p, m);
    QuotientWords(nh, nl, p, m);
    ShlKeeps(nh, p, m);
    ShlKeeps(nl, p, m);
    Pow2Add(32 - sr, 32);
    Pow2Values();
    DivideShrinks(nh, p);
    assert ((nl % p) * m) * W == (nl % p) * (m * W);
  }

  /** int64.c:535-538 and 577-580: sr == 32. */
  lemma SplitAt(nh: nat, nl: nat)
    requires nh < W && nl < W
    ensures Split(nh * W + nl, 32, nl, 0, 0, nh)
  {
    Pow2Values();
    MulDivMod(nh * W + nl, W, nh, nl);
  }

  /** int64.c:550-554: 33 <= sr <= 63. */
  method SplitAbove(nh: nat, nl: nat, sr: nat) returns (qh: nat, ql: nat, rh: nat, rl: nat)
    requires nh < W && nl < W && 33 <= sr <= 63
    ensures Split(nh * W + nl, sr, qh, ql, rh, rl)
  {
    hide Or, Shl32, Shr, Split;
    ql := Shl32(nl, 64 - sr);
    qh := Or(Shl32(nh, 64 - sr), Shr(nl, sr - 32));
    rh := 0;
    rl := Shr(nh, sr - 32);
    SplitAboveWords(nh, nl, sr, Pow2(sr - 32), Pow2(64 - sr));
  }

  lemma SplitAboveWords(nh: nat, nl: nat, sr: nat, p: nat, m: nat)
    requires nh < W && nl < W && 33 <= sr <= 63 && p == Pow2(sr - 32) && m == Pow2(64 - sr)
    ensures Split(nh * W + nl, sr, Or(Shl32(nh, 64 - sr), Shr(nl, sr - 32)), Shl32(nl, 64 - sr), 0, Shr(nh, sr - 32))
  {
    hide Or, Shl32, Shr, Pow2;
    JoinWords(nh, nl, 64 - sr, p, m);
    JoinWords(nl, nh, 64 - sr, p, m);
    Pow2Add(sr - 32, 32);
    Pow2Values();
    DivMul(nh * W + nl, W, p);
    MulDivMod(nh * W + nl, W, nh, nl);
    assert Pow2(sr) == W * p;
    ShlKeeps(nl, p, m);
    Distribute(nh % p, W, nl, m);
    DivideShrinks(nh, p);
    AboveWords(nh % p, nl / p, (nl % p) * m, m, nl);
  }

  lemma AboveWords(x: nat, y: nat, z: nat, m: nat, nl: nat)
    requires nl * m == y * W + z
    ensures (x * m + y) * W + z == (x * W + nl) * m
  {
    Distribute(x, W, nl, m);
    Distribute(x, m, y, W);
    assert x * (m * W) == x * (W * m);
  }

  // ---------------------------------------------------------------- the number of steps

  /** A power-of-two bracket on both operands bounds the quotient's high part. */
  lemma ShiftedBelow(a: nat, d: nat, e: nat, f: nat, sr: nat)
    requires a < Pow2(e) && Pow2(f) <= d && sr + f == e
    ensures a / Pow2(sr) < d
  {
    Pow2Add(f, sr);
    MulMono(Pow2(f), d, Pow2(sr));
    DivBelow(a, d, Pow2(sr));
  }

  lemma DivBelow(a: nat, d: nat, p: nat)
    requires p > 0 && a < d * p
    ensures a / p < d
  {
    DivModBound(a, p);
    if a / p >= d {
      MulMono(d, a / p, p);
      assert false;
    }
  }

  lemma HighBracket(h: nat, l: nat, c: nat)
    requires h < W && l < W && Leading(h, c)
    ensures c <= 31 && Pow2(63 - c) <= h * W + l < Pow2(64 - c)
  {
    Pow2Values();
    Pow2Add(31 - c, 32);
    Pow2Add(32 - c, 32);
    MulMono(Pow2(31 - c), h, W);
    MulMono(h + 1, Pow2(32 - c), W);
  }

  /** Fewer bits in n than in d: the difference of the counts wraps around. */
  lemma StepsNegative(nh: nat, nl: nat, dh: nat, dl: nat, cn: nat, cd: nat)
    requires nh < W && nl < W && dh < W && dl < W && Leading(nh, cn) && Leading(dh, cd) && cd < cn
    ensures Sub32(cd, cn) > 31 && nh * W + nl < dh * W + dl
  {
    HighBracket(nh, nl, cn);
    HighBracket(dh, dl, cd);
    hide Pow2, Leading;
    assert Sub32(cd, cn) == W - (cn - cd);
    Pow2Monotone(64 - cn, 63 - cd);
  }

  lemma StepsPositive(nh: nat, nl: nat, dh: nat, dl: nat, cn: nat, cd: nat)
    requires nh < W && nl < W && dh < W && dl < W && Leading(nh, cn) && Leading(dh, cd) && cd >= cn
    ensures Sub32(cd, cn) == cd - cn <= 31 && (nh * W + nl) / Pow2(cd - cn + 1) < dh * W + dl
    ensures dh * W + dl > D / 2 ==> nh * W + nl >= D / 2 && cd == cn
  {
    hide Pow2, Leading;
    HighBracket(nh, nl, cn);
    HighBracket(dh, dl, cd);
    ShiftedBelow(nh * W + nl, dh * W + dl, 64 - cn, 63 - cd, cd - cn + 1);
    Pow2Values();
    if cd > 0 {
      Pow2Monotone(64 - cd, 63);
    }
  }

  /** clz(d.high) - clz(n.high) as an unsigned word: huge when n < d, else one less than the steps needed. */
  lemma StepsHigh(nh: nat, nl: nat, dh: nat, dl: nat, cn: nat, cd: nat)
    requires nh < W && nl < W && dh < W && dl < W && Leading(nh, cn) && Leading(dh, cd)
    ensures var sr := Sub32(cd, cn);
            var a, d := nh * W + nl, dh * W + dl;
            && (sr > 31 ==> a < d)
            && (sr <= 31 ==> sr == cd - cn && a / Pow2(sr + 1) < d && (d > D / 2 ==> a >= D / 2 && sr == 0))
  {
    hide Pow2;
    if cd < cn {
      StepsNegative(nh, nl, dh, dl, cn, cd);
    } else {
      StepsPositive(nh, nl, dh, dl, cn, cd);
    }
  }

  /** 1 + 32 + clz(d.low) - clz(n.high) lies in 2 .. 63. */
  lemma StepsLow(nh: nat, nl: nat, dl: nat, cn: nat, cd: nat)
    requires nh < W && nl < W && dl < W && Leading(nh, cn) && Leading(dl, cd)
    ensures var sr := Sub32(1 + 32 + cd, cn);
            2 <= sr <= 64 && (dl > 1 ==> sr <= 63) && (nh * W + nl) / Pow2(sr) < dl
  {
    hide Pow2;
    HighBracket(nh, nl, cn);
    ShiftedBelow(nh * W + nl, dl, 64 - cn, 31 - cd, 33 + cd - cn);
    if dl > 1 {
      LowOne(dl, cd);
    }
    MulDivMod(33 + cd - cn, W, 0, 33 + cd - cn);
  }

  lemma LowOne(dl: nat, cd: nat)
    requires Leading(dl, cd) && dl > 1
    ensures cd <= 30
  {
    assert Pow2(1) == 2;
  }

  // ---------------------------------------------------------------- powers of two

  /** The test (d & (d - 1)) == 0, with z trailing zeros in d. */
  lemma PowerTest(d: nat, z: nat)
    requires 0 < d < W && Trailing(d, z) && z <= 31
    ensures And(d, Sub32(d, 1)) == 0 ==> d == Pow2(z)
    ensures d == Pow2(z) ==> And(d, Sub32(d, 1)) == 0
  {
    hide And;
    MinusOne(d);
    LowestBitCleared(d, z, Pow2(z));
  }

  lemma {:induction false} TrailingExists(d: nat) returns (z: nat)
    requires 0 < d < W
    ensures Trailing(d, z) && z <= 31
  {
    z := TrailingOf(d);
    TrailingBound(d, z);
  }

  lemma {:induction false} TrailingOf(d: nat) returns (z: nat)
    requires d > 0
    ensures Trailing(d, z)
  {
    if d % 2 == 1 {
      z := 0;
      MulDivMod(d, 1, d, 0);
    } else {
      z := TrailingOf(d / 2);
      DivMul(d, 2, Pow2(z));
      z := z + 1;
    }
  }

  /** d.low == 0, d.high a power of two, int64.c:477-485. */
  lemma PowerHigh(nh: nat, nl: nat, dh: nat, z: nat)
    requires nh < W && nl < W && 0 < dh < W && dh == Pow2(z) && z <= 31
    ensures Shr(nh, z) == (nh * W + nl) / (dh * W)
    ensures And(nh, Sub32(dh, 1)) * W + nl == (nh * W + nl) % (dh * W)
  {
    hide And, Pow2;
    MinusOne(dh);
    AndLowMask(nh, z, dh);
    MulDivMod(nh * W + nl, W, nh, nl);
    DivMul(nh * W + nl, W, dh);
  }

  /** d.low == 0 and n.low == 0, int64.c:459-470. */
  lemma BothLowZero(nh: nat, dh: nat)
    requires nh < W && 0 < dh < W
    ensures nh / dh == (nh * W) / (dh * W)
    ensures (nh % dh) * W == (nh * W) % (dh * W)
  {
    DivModBound(nh, dh);
    Distribute(nh / dh, dh, nh % dh, W);
    MulMono(nh % dh + 1, dh, W);
    MulDivMod(nh * W, dh * W, nh / dh, (nh % dh) * W);
  }

  /** d.high == 0, d.low a power of two above 1, int64.c:516-525. */
  lemma PowerLow(nh: nat, nl: nat, dl: nat, z: nat)
    requires nh < W && nl < W && dl == Pow2(z) && 1 <= z <= 31
    ensures Shr(nh, z) * W + Or(Shl32(nh, 32 - z), Shr(nl, z)) == (nh * W + nl) / dl
    ensures And(nl, Sub32(dl, 1)) == (nh * W + nl) % dl
  {
    hide Or, Shl32, Shr, And;
    SplitBelowWords(nh, nl, z, dl, Pow2(32 - z));
    JoinWords(nh, nl, 32 - z, dl, Pow2(32 - z));
    QuotientWords(nh, nl, dl, Pow2(32 - z));
    Pow2Values();
    Pow2Monotone(z, 31);
    MinusOne(dl);
    AndLowMask(nl, z, dl);
  }

  lemma MinusOne(d: nat)
    requires 0 < d < W
    ensures Sub32(d, 1) == d - 1
  {
  }

  // ---------------------------------------------------------------- the whole division

  /** int64.c:412-620. Quotient and remainder of 64-bit words, for every divisor but zero. */
  method Udivmoddi4(a: nat, b: nat) returns (q: nat, rem: nat)
    requires a < D && 0 < b < D
    ensures q == a / b && rem == a % b
  {
    hide And, Or, Shl32, Shr, Sub32, Pow2;
    var nh, nl, dh, dl := a / W, a % W, b / W, b % W;
    Halves(a);
    Halves(b);
    if nh == 0 {
      if dh == 0 {
        return nl / dl, nl % dl;
      }
      SmallDividend(a, b);
      return 0, nl;
    }
    if dl == 0 {
      q, rem := DivideByHigh(nh, nl, dh);
    } else if dh == 0 {
      q, rem := DivideByLow(nh, nl, dl);
    } else {
      q, rem := DivideByBoth(nh, nl, dh, dl);
    }
  }

  lemma Halves(a: nat)
    requires a < D
    ensures a / W < W && a % W < W && a == (a / W) * W + a % W
  {
  }

  lemma SmallDividend(a: nat, b: nat)
    requires a < b
    ensures a / b == 0 && a % b == a
  {
    MulDivMod(a, b, 0, a);
  }

  /** int64.c:445-507: the divisor's low word is zero. */
  method DivideByHigh(nh: nat, nl: nat, dh: nat) returns (q: nat, rem: nat)
    requires 0 < nh < W && nl < W && 0 < dh < W
    ensures q == (nh * W + nl) / (dh * W) && rem == (nh * W + nl) % (dh * W)
  {
    hide And, Or, Shl32, Shr, Pow2, Sub32, Leading, Trailing, Split;
    if nl == 0 {
      assert nh * W + nl == nh * W;
      BothLowZero(nh, dh);
      return nh / dh, (nh % dh) * W;
    }
    ghost var z0 := TrailingExists(dh);
    PowerTest(dh, z0);
    if And(dh, Sub32(dh, 1)) == 0 {
      PowerHigh(nh, nl, dh, z0);
      rem := And(nh, Sub32(dh, 1)) * W + nl;
      var z := Ctzsi2(dh);
      PowerTest(dh, z);
      PowerHigh(nh, nl, dh, z);
      return Shr(nh, z), rem;
    }
    var cd := Clzsi2(dh);
    var cn := Clzsi2(nh);
    var sr := Sub32(cd, cn);
    StepsHigh(nh, nl, dh, 0, cn, cd);
    if sr > 30 {
      NotPowerOfTwo(dh, z0, cd, sr, cn);
      SmallDividend(nh * W + nl, dh * W);
      return 0, nh * W + nl;
    }
    sr := sr + 1;
    var qh, ql, rh, rl := SplitBelow(nh, nl, sr);
    assert nh * W + nl < D && dh * W < D;
    q, rem := ShiftSubtract(nh * W + nl, dh * W, sr, qh, ql, rh, rl);
  }

  lemma OneHasNoZeros(z: nat)
    requires Trailing(1, z)
    ensures Pow2(z) == 1
  {
    TrailingBound(1, z);
  }

  /** A divisor word that is no power of two has at most 30 leading zeros. */
  lemma NotPowerOfTwo(dh: nat, z: nat, cd: nat, sr: nat, cn: nat)
    requires 0 < dh < W && Trailing(dh, z) && z <= 31 && dh != Pow2(z) && Leading(dh, cd)
    requires sr == Sub32(cd, cn) && cn <= 31 && sr > 30
    ensures sr > 31
  {
    hide Trailing;
    assert Pow2(0) == 1 && Pow2(1) == 2;
    if dh == 1 {
      OneHasNoZeros(z);
      assert false;
    }
  }

  /** int64.c:511-556: the divisor's high word is zero. */
  method DivideByLow(nh: nat, nl: nat, dl: nat) returns (q: nat, rem: nat)
    requires 0 < nh < W && nl < W && 0 < dl < W
    ensures q == (nh * W + nl) / dl && rem == (nh * W + nl) % dl
  {
    hide And, Or, Shl32, Shr, Pow2, Sub32, Leading, Trailing, Split;
    ghost var z0 := TrailingExists(dl);
    PowerTest(dl, z0);
    if And(dl, Sub32(dl, 1)) == 0 {
      rem := And(nl, Sub32(dl, 1));
      if dl == 1 {
        ByOne(nh * W + nl, nl);
        return nh * W + nl, rem;
      }
      var sr := Ctzsi2(dl);
      PowerTest(dl, sr);
      NotOne(dl, sr);
      PowerLow(nh, nl, dl, sr);
      return Shr(nh, sr) * W + Or(Shl32(nh, 32 - sr), Shr(nl, sr)), rem;
    }
    var cd := Clzsi2(dl);
    var cn := Clzsi2(nh);
    var sr := Sub32(1 + 32 + cd, cn);
    StepsLow(nh, nl, dl, cn, cd);
    AboveOne(dl, z0);
    var qh, ql, rh, rl;
    if sr == 32 {
      ql := 0;
      qh := nl;
      rh := 0;
      rl := nh;
      SplitAt(nh, nl);
    } else if sr < 32 {
      qh, ql, rh, rl := SplitBelow(nh, nl, sr);
    } else {
      qh, ql, rh, rl := SplitAbove(nh, nl, sr);
    }
    q, rem := ShiftSubtract(nh * W + nl, dl, sr, qh, ql, rh, rl);
  }

  lemma ByOne(a: nat, nl: nat)
    requires nl < W
    ensures a / 1 == a && a % 1 == 0 && And(nl, Sub32(1, 1)) == 0
  {
    MulDivMod(a, 1, a, 0);
  }

  lemma NotOne(dl: nat, z: nat)
    requires dl != 1 && dl == Pow2(z)
    ensures z >= 1
  {
  }

  lemma AboveOne(dl: nat, z: nat)
    requires 0 < dl < W && Trailing(dl, z) && z <= 31 && And(dl, Sub32(dl, 1)) != 0
    ensures dl > 1
  {
    hide And, Sub32;
    ByOne(1, 1);
  }

  /** int64.c:559-590: neither word of the divisor is zero. */
  method DivideByBoth(nh: nat, nl: nat, dh: nat, dl: nat) returns (q: nat, rem: nat)
    requires 0 < nh < W && nl < W && 0 < dh < W && 0 < dl < W
    ensures q == (nh * W + nl) / (dh * W + dl) && rem == (nh * W + nl) % (dh * W + dl)
  {
    hide And, Or, Shl32, Shr, Pow2, Sub32, Leading, Split;
    var cd := Clzsi2(dh);
    var cn := Clzsi2(nh);
    var sr := Sub32(cd, cn);
    StepsHigh(nh, nl, dh, dl, cn, cd);
    if sr > 31 {
      SmallDividend(nh * W + nl, dh * W + dl);
      return 0, nh * W + nl;
    }
    sr := sr + 1;
    var qh, ql, rh, rl;
    if sr == 32 {
      ql := 0;
      qh := nl;
      rh := 0;
      rl := nh;
      SplitAt(nh, nl);
    } else {
      qh, ql, rh, rl := SplitBelow(nh, nl, sr);
    }
    q, rem := ShiftSubtract(nh * W + nl, dh * W + dl, sr, qh, ql, rh, rl);
  }
}
