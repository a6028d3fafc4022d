/** Words as sets of bit positions. */
module BitMask {
  import opened Bits

  predicate Bit(x: nat, i: nat) {
    if i == 0 then x % 2 == 1 else Bit(x / 2, i - 1)
  }

  /** The complement of a 32-bit word. */
  function Not32(x: nat): nat
    requires x < W
  {
    W - 1 - x
  }

  lemma {:induction false} AndBits(a: nat, b: nat, i: nat)
    ensures Bit(And(a, b), i) <==> Bit(a, i) && Bit(b, i)
    decreases i
  {
    AndHalves(a, b);
    if i > 0 {
      hide And;
      AndBits(a / 2, b / 2, i - 1);
    }
  }

  lemma AndHalves(a: nat, b: nat)
    ensures And(a, b) / 2 == And(a / 2, b / 2) && And(a, b) % 2 == (if a % 2 == 1 && b % 2 == 1 then 1 else 0)
  {
  }

  lemma {:induction false} OrBits(a: nat, b: nat, i: nat)
    ensures Bit(Or(a, b), i) <==> Bit(a, i) || Bit(b, i)
    decreases i
  {
    OrHalves(a, b);
    if i > 0 {
      hide Or;
      OrBits(a / 2, b / 2, i - 1);
    }
  }

  lemma OrHalves(a: nat, b: nat)
    ensures Or(a, b) / 2 == Or(a / 2, b / 2) && Or(a, b) % 2 == (if a % 2 == 1 || b % 2 == 1 then 1 else 0)
  {
  }

  lemma {:induction false} XorBits(a: nat, b: nat, i: nat)
    ensures Bit(Xor(a, b), i) <==> Bit(a, i) != Bit(b, i)
    decreases i
  {
    XorHalves(a, b);
    if i > 0 {
      hide Xor;
      XorBits(a / 2, b / 2, i - 1);
    }
  }

  lemma XorHalves(a: nat, b: nat)
    ensures Xor(a, b) / 2 == Xor(a / 2, b / 2) && Xor(a, b) % 2 == (if a % 2 != b % 2 then 1 else 0)
  {
  }

  lemma {:induction false} OnesBits(n: nat, i: nat)
    ensures Bit(Pow2(n) - 1, i) <==> i < n
    decreases n
  {
    if n == 0 {
      ZeroBits(i);
    } else {
      HalfMask(Pow2(n - 1));
      if i > 0 {
        OnesBits(n - 1, i - 1);
      }
    }
  }

  lemma {:induction false} ZeroBits(i: nat)
    ensures !Bit(0, i)
  {
    if i > 0 {
      ZeroBits(i - 1);
    }
  }

  lemma {:induction false} ComplementBits(x: nat, n: nat, p: nat, i: nat)
    requires p == Pow2(n) && x < p && i < n
    ensures Bit(p - 1 - x, i) <==> !Bit(x, i)
    decreases n
  {
    var h := Pow2(n - 1);
    assert (p - 1 - x) / 2 == h - 1 - x / 2;
    if i > 0 {
      ComplementBits(x / 2, n - 1, h, i - 1);
    }
  }

  lemma {:induction false} LowBits(x: nat, n: nat, p: nat, i: nat)
    requires p == Pow2(n) && i < n
    ensures Bit(x % p, i) == Bit(x, i)
    decreases n
  {
    var h := Pow2(n - 1);
    ModDouble(x, h);
    HalfSum((x / 2) % h, x);
    if i > 0 {
      LowBits(x / 2, n - 1, h, i - 1);
    }
  }

  lemma HalfSum(y: nat, x: nat)
    ensures (2 * y + x % 2) / 2 == y && (2 * y + x % 2) % 2 == x % 2
  {
  }

  lemma {:induction false} PowerBits(k: nat, i: nat)
    ensures Bit(Pow2(k), i) <==> i == k
    decreases k
  {
    if k == 0 {
      if i > 0 {
        ZeroBits(i - 1);
      }
    } else if i > 0 {
      PowerBits(k - 1, i - 1);
    }
  }

  /** A word is its bits. */
  lemma {:induction false} SameBits(a: nat, b: nat, n: nat)
    requires a < Pow2(n) && b < Pow2(n) && forall i | 0 <= i < n :: Bit(a, i) == Bit(b, i)
    ensures a == b
    decreases n
  {
    if n > 0 {
      assert Bit(a, 0) == Bit(b, 0);
      forall i | 0 <= i < n - 1
        ensures Bit(a / 2, i) == Bit(b / 2, i)
      {
        assert Bit(a, i + 1) == Bit(b, i + 1);
      }
      SameBits(a / 2, b / 2, n - 1);
    }
  }

  lemma {:induction false} SomeBit(x: nat, n: nat, p: nat) returns (k: nat)
    requires p == Pow2(n) && 0 < x < p
    ensures k < n && Bit(x, k) && Pow2(k) <= x && forall i | 0 <= i < k :: !Bit(x, i)
    decreases n
  {
    if x % 2 == 1 {
      k := 0;
    } else {
      var j := SomeBit(x / 2, n - 1, Pow2(n - 1));
      k := j + 1;
      forall i | 0 <= i < k
        ensures !Bit(x, i)
      {
        if i > 0 {
          assert !Bit(x / 2, i - 1);
        }
      }
    }
  }

  /** x & (~x + 1) is the lowest bit of x. */
  lemma {:induction false} LowestBit(x: nat, k: nat, n: nat, p: nat)
    requires p == Pow2(n) && 0 < x < p && k < n && Bit(x, k) && forall i | 0 <= i < k :: !Bit(x, i)
    ensures And(x, p - x) == Pow2(k)
    decreases n
  {
    var h := Pow2(n - 1);
    AndHalves(x, p - x);
    if k == 0 {
      assert (p - x) / 2 == h - 1 - x / 2;
      Disjoint(x / 2, n - 1, h);
      hide And;
      OddParts(And(x, p - x), 0);
    } else {
      assert !Bit(x, 0);
      assert (p - x) / 2 == h - x / 2;
      forall i | 0 <= i < k - 1
        ensures !Bit(x / 2, i)
      {
        assert !Bit(x, i + 1);
      }
      LowestBit(x / 2, k - 1, n - 1, h);
      hide And;
      OddParts(And(x, p - x), And(x / 2, h - x / 2));
    }
  }

  lemma OddParts(z: nat, y: nat)
    requires z / 2 == y
    ensures z == 2 * y + z % 2
  {
  }

  /** A word and its complement have no bits in common. */
  lemma {:induction false} Disjoint(x: nat, n: nat, p: nat)
    requires p == Pow2(n) && x < p
    ensures And(x, p - 1 - x) == 0
    decreases n
  {
    if n > 0 {
      var h := Pow2(n - 1);
      assert (p - 1 - x) / 2 == h - 1 - x / 2;
      AndHalves(x, p - 1 - x);
      Disjoint(x / 2, n - 1, h);
      hide And;
      OddParts(And(x, p - 1 - x), 0);
    }
  }

  /** Taking out a bit that is there. */
  lemma {:induction false} ClearBit(x: nat, k: nat, i: nat)
    requires Bit(x, k)
    ensures Pow2(k) <= x && (Bit(x - Pow2(k), i) <==> Bit(x, i) && i != k)
    decreases k
  {
    if k == 0 {
      assert (x - 1) / 2 == x / 2;
    } else {
      ClearBit(x / 2, k - 1, if i == 0 then 0 else i - 1);
      assert (x - Pow2(k)) / 2 == x / 2 - Pow2(k - 1);
    }
  }

  /** Or leaves bits above both small operands alone. */
  lemma {:induction false} OrAbove(a: nat, y: nat, z: nat, k: nat, p: nat)
    requires p == Pow2(k) && y < p && z < p && a % p == 0
    ensures Or(a + y, z) == a + Or(y, z)
    decreases k
  {
    hide Or;
    if k == 0 {
      OrZero(a);
      OrZero(0);
    } else {
      EvenMultiple(a, Pow2(k - 1));
      OrAbove(a / 2, y / 2, z / 2, k - 1, Pow2(k - 1));
      OrHalves(a + y, z);
      OrHalves(y, z);
      HalfHigh(a, y);
      OddParts(Or(a + y, z), Or(a + y, z) / 2);
      OddParts(Or(y, z), Or(y, z) / 2);
    }
  }

  lemma OrZero(a: nat)
    ensures Or(a, 0) == a
  {
  }

  lemma HalfHigh(a: nat, y: nat)
    requires a % 2 == 0
    ensures (a + y) / 2 == a / 2 + y / 2 && (a + y) % 2 == y % 2
  {
  }
}
