/** The functions of FIPS 180-4, section 4.1.2, bit by bit. */
module Sha256Bits {
  import opened Sha256
  import opened Sha256Spec

  /** Bit i of a word, bit 0 being its lowest. */
  predicate Bit(x: bv32, i: nat) {
    if i == 0 then x & 1 == 1 else Bit(x >> 1, i - 1)
  }

  // ---------------------------------------------------------------- choice and majority

  lemma ChHalves(x: bv32, y: bv32, z: bv32)
    ensures Ch(x, y, z) & 1 == if x & 1 == 1 then y & 1 else z & 1
    ensures Ch(x, y, z) >> 1 == Ch(x >> 1, y >> 1, z >> 1)
  {
  }

  /** Ch takes y's bit where x has a one and z's where x has a zero. */
  lemma {:induction false} ChBits(x: bv32, y: bv32, z: bv32, i: nat)
    ensures Bit(Ch(x, y, z), i) == if Bit(x, i) then Bit(y, i) else Bit(z, i)
  {
    hide Ch;
    ChHalves(x, y, z);
    if i > 0 {
      ChBits(x >> 1, y >> 1, z >> 1, i - 1);
    }
  }

  lemma MajHalves(x: bv32, y: bv32, z: bv32)
    ensures Maj(x, y, z) & 1 == if x & 1 == y & 1 then x & 1 else z & 1
    ensures Maj(x, y, z) >> 1 == Maj(x >> 1, y >> 1, z >> 1)
  {
  }

  /** Maj takes the bit that at least two of the three words have. */
  lemma {:induction false} MajBits(x: bv32, y: bv32, z: bv32, i: nat)
    ensures Bit(Maj(x, y, z), i) == if Bit(x, i) == Bit(y, i) then Bit(x, i) else Bit(z, i)
  {
    hide Maj;
    MajHalves(x, y, z);
    if i > 0 {
      MajBits(x >> 1, y >> 1, z >> 1, i - 1);
    }
  }

  // ---------------------------------------------------------------- shifts

  lemma ShiftTwo(x: bv32, i: nat)
    ensures Bit(x >> 2, i) == Bit(x, i + 2)
  {
    assert (x >> 1) >> 1 == x >> 2;
  }

  lemma ShiftFour(x: bv32, i: nat)
    ensures Bit(x >> 4, i) == Bit(x, i + 4)
  {
    ShiftTwo(x >> 2, i);
    ShiftTwo(x, i + 2);
    assert (x >> 2) >> 2 == x >> 4;
  }

  lemma ShiftEight(x: bv32, i: nat)
    ensures Bit(x >> 8, i) == Bit(x, i + 8)
  {
    ShiftFour(x >> 4, i);
    ShiftFour(x, i + 4);
    assert (x >> 4) >> 4 == x >> 8;
  }

  lemma ShiftSixteen(x: bv32, i: nat)
    ensures Bit(x >> 16, i) == Bit(x, i + 16)
  {
    ShiftEight(x >> 8, i);
    ShiftEight(x, i + 8);
    assert (x >> 8) >> 8 == x >> 16;
  }

  lemma ShiftThree(x: bv32, i: nat)
    ensures Bit(x >> 3, i) == Bit(x, i + 3)
  {
    ShiftTwo(x >> 1, i);
    assert (x >> 1) >> 2 == x >> 3;
  }

  lemma ShiftTen(x: bv32, i: nat)
    ensures Bit(x >> 10, i) == Bit(x, i + 10)
  {
    ShiftTwo(x >> 8, i);
    ShiftEight(x, i + 2);
    assert (x >> 8) >> 2 == x >> 10;
  }

  lemma {:induction false} ZeroBits(i: nat)
    ensures !Bit(0, i)
  {
    if i > 0 {
      ZeroBits(i - 1);
    }
  }

  lemma PastTheEnd(x: bv32, i: nat)
    requires 32 <= i
    ensures !Bit(x, i)
  {
    ShiftSixteen(x, i - 16);
    ShiftSixteen(x >> 16, i - 32);
    assert (x >> 16) >> 16 == 0;
    ZeroBits(i - 32);
  }

  // ---------------------------------------------------------------- rotations

  function Or(x: bv32, y: bv32): bv32 {
    x | y
  }

  lemma OrIs(x: bv32, y: bv32)
    ensures Or(x, y) == x | y
  {
  }

  lemma OrHalves(x: bv32, y: bv32)
    ensures Or(x, y) & 1 == if x & 1 == 1 then 1 else y & 1
    ensures Or(x, y) >> 1 == Or(x >> 1, y >> 1)
  {
    hide Or;
    OrIs(x, y);
    OrIs(x >> 1, y >> 1);
  }

  lemma {:induction false} OrBits(x: bv32, y: bv32, i: nat)
    ensures Bit(Or(x, y), i) == (Bit(x, i) || Bit(y, i))
  {
    hide Or;
    OrHalves(x, y);
    if i > 0 {
      OrBits(x >> 1, y >> 1, i - 1);
    }
  }

  /** Low bits that are zero. */
  lemma LowTwo(x: bv32, i: nat)
    requires x & 0x3 == 0 && i < 2
    ensures !Bit(x, i)
  {
    assert x & 1 == 0 && (x >> 1) & 1 == 0;
  }

  lemma LowFour(x: bv32, i: nat)
    requires x & 0xf == 0 && i < 4
    ensures !Bit(x, i)
  {
    assert x & 0x3 == 0 && (x >> 2) & 0x3 == 0;
    if i < 2 {
      LowTwo(x, i);
    } else {
      ShiftTwo(x, i - 2);
      LowTwo(x >> 2, i - 2);
    }
  }

  lemma LowEight(x: bv32, i: nat)
    requires x & 0xff == 0 && i < 8
    ensures !Bit(x, i)
  {
    assert x & 0xf == 0 && (x >> 4) & 0xf == 0;
    if i < 4 {
      LowFour(x, i);
    } else {
      ShiftFour(x, i - 4);
      LowFour(x >> 4, i - 4);
    }
  }

  lemma LowSixteen(x: bv32, i: nat)
    requires x & 0xffff == 0 && i < 16
    ensures !Bit(x, i)
  {
    assert x & 0xff == 0 && (x >> 8) & 0xff == 0;
    if i < 8 {
      LowEight(x, i);
    } else {
      ShiftEight(x, i - 8);
      LowEight(x >> 8, i - 8);
    }
  }

  /** Only the top bit is left of a word moved up by 31 places. */
  lemma TopBit(x: bv32, i: nat)
    requires i < 32
    ensures Bit(x << 31, i) == (i == 31 && Bit(x, 0))
  {
    var y := x << 31;
    assert y & 0xffff == 0;
    if i < 16 {
      LowSixteen(y, i);
    } else {
      ShiftSixteen(y, i - 16);
      HalfTop(x, y >> 16, i - 16);
    }
  }

  lemma HalfTop(x: bv32, z: bv32, i: nat)
    requires z == (x << 31) >> 16 && i < 16
    ensures Bit(z, i) == (i == 15 && Bit(x, 0))
  {
    assert z & 0xff == 0 && (z >> 8) & 0xf == 0 && (z >> 12) & 0x3 == 0 && (z >> 14) & 0x1 == 0;
    assert (z >> 15) & 1 == x & 1;
    assert (z >> 8) >> 4 == z >> 12 && (z >> 12) >> 2 == z >> 14 && (z >> 14) >> 1 == z >> 15;
    if i < 8 {
      LowEight(z, i);
    } else {
      ShiftEight(z, i - 8);
      if i < 12 {
        LowFour(z >> 8, i - 8);
      } else {
        ShiftFour(z >> 8, i - 12);
        if i < 14 {
          LowTwo(z >> 12, i - 12);
        } else {
          ShiftTwo(z >> 12, i - 14);
        }
      }
    }
  }

  function Down(x: bv32): bv32 {
    x >> 1
  }

  function Top(x: bv32): bv32 {
    x << 31
  }

  lemma RotrParts(x: bv32, i: nat)
    requires i < 32
    ensures Rotr(x, 1) == Or(Down(x), Top(x))
    ensures Bit(Down(x), i) == Bit(x, i + 1) && Bit(Top(x), i) == (i == 31 && Bit(x, 0))
  {
    TopBit(x, i);
  }

  /** Positions count modulo 32. */
  function Around(i: nat): (r: nat)
    ensures r < 32
  {
    i % 32
  }

  lemma AroundOne(i: nat)
    requires i < 32
    ensures Around(i + 1) == if i == 31 then 0 else i + 1
  {
  }

  lemma AroundSum(i: nat, n: nat)
    ensures Around(Around(i + n) + 1) == Around(i + (n + 1))
  {
  }

  /** Rotation by one: every bit moves down by one place, and the lowest becomes the highest. */
  lemma RotrOne(x: bv32, i: nat)
    requires i < 32
    ensures Bit(Rotr(x, 1), i) == Bit(x, Around(i + 1))
  {
    hide *;
    AroundOne(i);
    RotrParts(x, i);
    OrBits(Down(x), Top(x), i);
    if i == 31 {
      PastTheEnd(x, 32);
    }
  }

  lemma RotrStep(x: bv32, n: bv6)
    requires 1 < n < 32
    ensures Rotr(x, n) == Rotr(Rotr(x, 1), n - 1)
  {
    hide *;
    RotrOnce(x);
    RotrMore(x, Rotr(x, 1), n);
  }

  lemma RotrOnce(x: bv32)
    ensures Rotr(x, 1) == (x >> 1) | (x << 31)
  {
  }

  lemma RotrMore(x: bv32, y: bv32, n: bv6)
    requires 1 < n < 32 && y == (x >> 1) | (x << 31)
    ensures Rotr(x, n) == Rotr(y, n - 1)
  {
    hide Rotr;
    RotrIs(x, n);
    RotrIs(y, n - 1);
  }

  lemma RotrIs(x: bv32, n: bv6)
    requires 0 < n < 32
    ensures Rotr(x, n) == (x >> n) | (x << (32 - n))
  {
  }

  function Places(n: bv6): nat {
    n as nat
  }

  lemma OneLess(n: bv6)
    requires 1 < n < 32
    ensures (n - 1) as nat == n as nat - 1
  {
  }

  lemma PlacesStep(n: bv6)
    requires 1 < n < 32
    ensures Places(n) == Places(n - 1) + 1
  {
    hide Places;
    OneLess(n);
    PlacesIs(n);
    PlacesIs(n - 1);
  }

  lemma PlacesIs(n: bv6)
    ensures Places(n) == n as nat
  {
  }

  /** Bit i of a word rotated right by n is its bit i + n, counted modulo 32. */
  lemma {:induction false} RotrBits(x: bv32, n: bv6, i: nat)
    requires 0 < n < 32 && i < 32
    ensures Bit(Rotr(x, n), i) == Bit(x, Around(i + Places(n)))
    decreases Places(n)
  {
    hide *;
    if n == 1 {
      PlacesOne();
      RotrOne(x, i);
    } else {
      PlacesStep(n);
      RotrStep(x, n);
      RotrBits(Rotr(x, 1), n - 1, i);
      RotrOne(x, Around(i + Places(n - 1)));
      AroundSum(i, Places(n - 1));
    }
  }

  lemma PlacesOne()
    ensures Places(1) == 1
  {
  }

  // ---------------------------------------------------------------- the sigmas

  ghost predicate Odd(a: bool, b: bool, c: bool) {
    (a != b) != c
  }

  function Xor(x: bv32, y: bv32, z: bv32): bv32 {
    x ^ y ^ z
  }

  lemma XorIs(x: bv32, y: bv32, z: bv32)
    ensures Xor(x, y, z) == x ^ y ^ z
  {
  }

  lemma XorHalves(x: bv32, y: bv32, z: bv32)
    ensures Xor(x, y, z) & 1 == if Odd(x & 1 == 1, y & 1 == 1, z & 1 == 1) then 1 else 0
    ensures Xor(x, y, z) >> 1 == Xor(x >> 1, y >> 1, z >> 1)
  {
    hide Xor;
    XorIs(x, y, z);
    XorIs(x >> 1, y >> 1, z >> 1);
  }

  lemma {:induction false} XorBits(x: bv32, y: bv32, z: bv32, i: nat)
    ensures Bit(Xor(x, y, z), i) == Odd(Bit(x, i), Bit(y, i), Bit(z, i))
  {
    hide Xor;
    XorHalves(x, y, z);
    if i > 0 {
      XorBits(x >> 1, y >> 1, z >> 1, i - 1);
    }
  }

  lemma BigSigma0Xor(x: bv32)
    ensures BigSigma0(x) == Xor(Rotr(x, 2), Rotr(x, 13), Rotr(x, 22))
  {
    hide Rotr, Xor;
    XorIs(Rotr(x, 2), Rotr(x, 13), Rotr(x, 22));
  }

  lemma BigSigma1Xor(x: bv32)
    ensures BigSigma1(x) == Xor(Rotr(x, 6), Rotr(x, 11), Rotr(x, 25))
  {
    hide Rotr, Xor;
    XorIs(Rotr(x, 6), Rotr(x, 11), Rotr(x, 25));
  }

  lemma SmallSigma0Xor(x: bv32)
    ensures SmallSigma0(x) == Xor(Rotr(x, 7), Rotr(x, 18), x >> 3)
  {
    hide Rotr, Xor;
    XorIs(Rotr(x, 7), Rotr(x, 18), x >> 3);
  }

  lemma SmallSigma1Xor(x: bv32)
    ensures SmallSigma1(x) == Xor(Rotr(x, 17), Rotr(x, 19), x >> 10)
  {
    hide Rotr, Xor;
    XorIs(Rotr(x, 17), Rotr(x, 19), x >> 10);
  }

  /** Bit i of a sigma is the parity of three bits of its argument; what is shifted out counts as zero. */
  lemma SigmaBits(x: bv32, i: nat)
    requires i < 32
    ensures Bit(BigSigma0(x), i) == Odd(Bit(x, Around(i + 2)), Bit(x, Around(i + 13)), Bit(x, Around(i + 22)))
    ensures Bit(BigSigma1(x), i) == Odd(Bit(x, Around(i + 6)), Bit(x, Around(i + 11)), Bit(x, Around(i + 25)))
    ensures Bit(SmallSigma0(x), i)
         == Odd(Bit(x, Around(i + 7)), Bit(x, Around(i + 18)), i + 3 < 32 && Bit(x, i + 3))
    ensures Bit(SmallSigma1(x), i)
         == Odd(Bit(x, Around(i + 17)), Bit(x, Around(i + 19)), i + 10 < 32 && Bit(x, i + 10))
  {
    BigBits(x, i);
    SmallBits(x, i);
  }

  lemma Amounts()
    ensures Places(2) == 2 && Places(13) == 13 && Places(22) == 22 && Places(6) == 6 && Places(11) == 11
    ensures Places(25) == 25 && Places(7) == 7 && Places(18) == 18 && Places(17) == 17 && Places(19) == 19
  {
  }

  lemma BigBits(x: bv32, i: nat)
    requires i < 32
    ensures Bit(BigSigma0(x), i) == Odd(Bit(x, Around(i + 2)), Bit(x, Around(i + 13)), Bit(x, Around(i + 22)))
    ensures Bit(BigSigma1(x), i) == Odd(Bit(x, Around(i + 6)), Bit(x, Around(i + 11)), Bit(x, Around(i + 25)))
  {
    hide *;
    Amounts();
    BigSigma0Xor(x);
    BigSigma1Xor(x);
    XorBits(Rotr(x, 2), Rotr(x, 13), Rotr(x, 22), i);
    XorBits(Rotr(x, 6), Rotr(x, 11), Rotr(x, 25), i);
    RotrBits(x, 2, i);
    RotrBits(x, 13, i);
    RotrBits(x, 22, i);
    RotrBits(x, 6, i);
    RotrBits(x, 11, i);
    RotrBits(x, 25, i);
  }

  lemma SmallBits(x: bv32, i: nat)
    requires i < 32
    ensures Bit(SmallSigma0(x), i)
         == Odd(Bit(x, Around(i + 7)), Bit(x, Around(i + 18)), i + 3 < 32 && Bit(x, i + 3))
    ensures Bit(SmallSigma1(x), i)
         == Odd(Bit(x, Around(i + 17)), Bit(x, Around(i + 19)), i + 10 < 32 && Bit(x, i + 10))
  {
    hide *;
    Amounts();
    SmallSigma0Xor(x);
    SmallSigma1Xor(x);
    XorBits(Rotr(x, 7), Rotr(x, 18), x >> 3, i);
    XorBits(Rotr(x, 17), Rotr(x, 19), x >> 10, i);
    RotrBits(x, 7, i);
    RotrBits(x, 18, i);
    RotrBits(x, 17, i);
    RotrBits(x, 19, i);
    ShiftThree(x, i);
    ShiftTen(x, i);
    if i + 3 >= 32 {
      PastTheEnd(x, i + 3);
    }
    if i + 10 >= 32 {
      PastTheEnd(x, i + 10);
    }
  }

  // ---------------------------------------------------------------- numbers as bytes

  function Number(b: Byte): nat {
    b.bits as nat
  }

  function Weight(b: bool, w: nat): nat {
    if b then w else 0
  }

  function FromBits(a: bool, b: bool, c: bool, d: bool, e: bool, f: bool, g: bool, h: bool): Byte {
    Byte(BitIf(a, 1) | BitIf(b, 2) | BitIf(c, 4) | BitIf(d, 8) | BitIf(e, 16) | BitIf(f, 32) | BitIf(g, 64) | BitIf(h,
        128))
  }

  lemma SumOfBits(a: bool, b: bool, c: bool, d: bool, e: bool, f: bool, g: bool, h: bool)
    ensures Number(FromBits(a, b, c, d, e, f, g, h))
              == Weight(a, 1) + Weight(b, 2) + Weight(c, 4) + Weight(d, 8) + Weight(e, 16) + Weight(f, 32)
                  + Weight(g, 64) + Weight(h, 128)
  {
  }

  predicate BitAt(m: nat, w: nat)
    requires w != 0
  {
    m / w % 2 == 1
  }

  lemma Halvings(m: nat)
    ensures m / 2 / 2 == m / 4 && m / 4 / 2 == m / 8 && m / 8 / 2 == m / 16 && m / 16 / 2 == m / 32
    ensures m / 32 / 2 == m / 64 && m / 64 / 2 == m / 128
  {
  }

  lemma Digit(m: nat, w: nat)
    requires w in {1, 2, 4, 8, 16, 32, 64, 128}
    ensures w * (m / w) == Weight(BitAt(m, w), w) + 2 * w * (m / w / 2)
  {
  }

  lemma Binary(m: nat)
    requires m < 256
    ensures m == Weight(BitAt(m, 1), 1) + Weight(BitAt(m, 2), 2) + Weight(BitAt(m, 4), 4) + Weight(BitAt(m, 8), 8)
            + Weight(BitAt(m, 16), 16) + Weight(BitAt(m, 32), 32) + Weight(BitAt(m, 64), 64)
                + Weight(BitAt(m, 128), 128)
  {
    hide BitAt, Weight;
    Halvings(m);
    Digit(m, 1);
    Digit(m, 2);
    Digit(m, 4);
    Digit(m, 8);
    Digit(m, 16);
    Digit(m, 32);
    Digit(m, 64);
    Digit(m, 128);
  }

  lemma ByteIs(n: nat, m: nat)
    requires m == n % 256
    ensures ByteOf(n) == FromBits(BitAt(m, 1), BitAt(m, 2), BitAt(m, 4), BitAt(m, 8), BitAt(m, 16), BitAt(m, 32),
                                  BitAt(m, 64), BitAt(m, 128))
  {
  }

  lemma ByteValue(n: nat)
    ensures Number(ByteOf(n)) == n % 256
  {
    hide *;
    var m := n % 256;
    ByteIs(n, m);
    Binary(m);
    SumOfBits(BitAt(m, 1), BitAt(m, 2), BitAt(m, 4), BitAt(m, 8), BitAt(m, 16), BitAt(m, 32), BitAt(m, 64),
              BitAt(m, 128));
  }

  /** The length field is the number in base 256, the highest digit first. */
  lemma FieldValue(n: nat)
    ensures (var f := LengthField(n);
             Number(f[0]) * 0x100_0000 + Number(f[1]) * 0x1_0000 + Number(f[2]) * 0x100 + Number(f[3])
             == n % 0x1_0000_0000)
  {
    hide ByteOf, Number;
    ByteValue(n / 0x100_0000);
    ByteValue(n / 0x1_0000);
    ByteValue(n / 0x100);
    ByteValue(n);
    Digits(n);
  }
}
