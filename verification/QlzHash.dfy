/** The hash of three bytes, bit by bit (lzip/quicklz.c:86-104). */
module QlzHash {
  import opened Bits
  import opened BitMask
  import opened QlzTokens

  /** Shifting right by k moves bit i + k to place i. */
  lemma {:induction false} ShiftedBit(x: nat, k: nat, p: nat, q: nat, i: nat)
    requires p == Pow2(k) && q * p <= x < q * p + p
    ensures Bit(q, i) <==> Bit(x, i + k)
    decreases k
  {
    hide Bit;
    if k > 0 {
      var h := Pow2(k - 1);
      assert q * p == 2 * (q * h);
      ShiftedBit(x / 2, k - 1, h, q, i);
      BitUp(x, i + k);
    }
  }

  lemma BitUp(x: nat, i: nat)
    requires i > 0
    ensures Bit(x, i) <==> Bit(x / 2, i - 1)
  {
  }

  /**
   * The hash has eleven bits. Bit i is the parity of the bits i, i + 9 and i + 13 of the 24-bit number that the bytes
   * make, the first byte lowest.
   */
  lemma HashBits(a: nat, b: nat, c: nat, i: nat)
    requires a < 256 && b < 256 && c < 256 && i < 11
    ensures (var v := a + 256 * b + 65536 * c;
             Bit(HashOf(a, b, c), i) <==> ((Bit(v, i) != Bit(v, i + 9)) != Bit(v, i + 13)))
  {
    hide Xor, Bit;
    var v := a + 256 * b + 65536 * c;
    PowersHere();
    ShiftedBit(v, 9, 512, v / 512, i);
    ShiftedBit(v, 13, 8192, v / 8192, i);
    XorBits(v / 512, v / 8192, i);
    XorBits(Xor(v / 512, v / 8192), v, i);
    LowBits(Xor(Xor(v / 512, v / 8192), v), 11, 2048, i);
  }

  lemma PowersHere()
    ensures Pow2(9) == 512 && Pow2(13) == 8192 && Pow2(11) == 2048
  {
    assert Pow2(4) == 16 && Pow2(8) == 256;
  }

  /** Different numbers differ in a bit, so the bits above and being below 2048 determine the hash. */
  lemma HashDetermined(a: nat, b: nat, c: nat, h: nat)
    requires h < 2048 && forall i | 0 <= i < 11 :: Bit(h, i) <==> Bit(HashOf(a, b, c), i)
    ensures h == HashOf(a, b, c)
  {
    hide HashOf, Bit;
    PowersHere();
    SameBits(h, HashOf(a, b, c), 11);
  }
}
