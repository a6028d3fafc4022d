/** Where the constants of FIPS 180-4, sections 4.2.2 and 5.3.3, come from. */
module Sha256Constants {
  import opened Bits
  import opened Sha256Spec

  ghost predicate Prime(n: nat) {
    n >= 2 && forall d | 2 <= d < n :: n % d != 0
  }

  function Primes0(t: nat): nat
    requires t < 16
  {
    match t
    case 0 => 2 case 1 => 3 case 2 => 5 case 3 => 7 case 4 => 11 case 5 => 13 case 6 => 17 case 7 => 19
    case 8 => 23 case 9 => 29 case 10 => 31 case 11 => 37 case 12 => 41 case 13 => 43 case 14 => 47 case _ => 53
  }

  function Primes16(t: nat): nat
    requires t < 16
  {
    match t
    case 0 => 59 case 1 => 61 case 2 => 67 case 3 => 71 case 4 => 73 case 5 => 79 case 6 => 83 case 7 => 89
    case 8 => 97 case 9 => 101 case 10 => 103 case 11 => 107 case 12 => 109 case 13 => 113 case 14 => 127 case _ => 131
  }

  function Primes32(t: nat): nat
    requires t < 16
  {
    match t
    case 0 => 137 case 1 => 139 case 2 => 149 case 3 => 151 case 4 => 157 case 5 => 163 case 6 => 167 case 7 => 173
    case 8 => 179 case 9 => 181 case 10 => 191 case 11 => 193 case 12 => 197 case 13 => 199 case 14 => 211 case _ => 223
  }

  function Primes48(t: nat): nat
    requires t < 16
  {
    match t
    case 0 => 227 case 1 => 229 case 2 => 233 case 3 => 239 case 4 => 241 case 5 => 251 case 6 => 257 case 7 => 263
    case 8 => 269 case 9 => 271 case 10 => 277 case 11 => 281 case 12 => 283 case 13 => 293 case 14 => 307 case _ => 311
  }

  /** The first 64 prime numbers, in ascending order. */
  function PrimeNumber(t: nat): nat
    requires t < 64
  {
    if t < 16 then Primes0(t)
    else if t < 32 then Primes16(t - 16)
    else if t < 48 then Primes32(t - 32)
    else Primes48(t - 48)
  }

  // ---------------------------------------------------------------- the primes

  /** Divided by none of the primes up to 17 but itself. */
  predicate Passes(n: nat) {
    && (n == 2 || n % 2 != 0) && (n == 3 || n % 3 != 0) && (n == 5 || n % 5 != 0) && (n == 7 || n % 7 != 0)
    && (n == 11 || n % 11 != 0) && (n == 13 || n % 13 != 0) && (n == 17 || n % 17 != 0)
  }

  lemma SmallDivisor(d: nat) returns (q: nat)
    requires 2 <= d < 18
    ensures q in {2, 3, 5, 7, 11, 13, 17} && d % q == 0 && q <= d
  {
    q := if d % 2 == 0 then 2 else if d % 3 == 0 then 3 else d;
  }

  lemma MultipleOf(a: nat, q: nat)
    requires 0 < q
    ensures (a * q) % q == 0
  {
    MulDivMod(a * q, q, a, 0);
  }

  lemma DividesOn(n: nat, d: nat, q: nat)
    requires 0 < d && 0 < q && n % d == 0 && d % q == 0
    ensures n % q == 0
  {
    var a, b := n / d, d / q;
    assert n == (a * b) * q;
    MultipleOf(a * b, q);
  }

  lemma Grows(a: nat, b: nat, d: nat)
    requires a <= b
    ensures d * a <= d * b
  {
  }

  lemma Cofactor(n: nat, d: nat)
    requires 2 <= d < n < 324 && n % d == 0
    ensures 2 <= n / d < n && n % (n / d) == 0 && (d < 18 || n / d < 18)
  {
    var e := n / d;
    assert n == d * e;
    MultipleOf(d, e);
    Grows(2, d, e);
    if d >= 18 && e >= 18 {
      Grows(18, e, d);
    }
  }

  lemma NoSmallDivisor(n: nat, d: nat)
    requires Passes(n) && 2 <= d < n && d < 18
    ensures n % d != 0
  {
    if n % d == 0 {
      var q := SmallDivisor(d);
      DividesOn(n, d, q);
    }
  }

  /** Below 18 * 18 the small primes decide. */
  lemma PassesIsPrime(n: nat)
    requires 2 <= n < 324 && Passes(n)
    ensures Prime(n)
  {
    forall d | 2 <= d < n
      ensures n % d != 0
    {
      if n % d == 0 {
        Cofactor(n, d);
        NoSmallDivisor(n, if d < 18 then d else n / d);
      }
    }
  }

  lemma PrimePasses(n: nat)
    requires Prime(n)
    ensures 2 <= n && Passes(n)
  {
    assert forall q | q in {2, 3, 5, 7, 11, 13, 17} && q < n :: n % q != 0;
  }

  lemma PassFrom0(t: nat)
    requires 0 <= t < 16
    ensures 2 <= PrimeNumber(t) <= 311 && Passes(PrimeNumber(t))
  {
  }

  lemma PassFrom16(t: nat)
    requires 16 <= t < 32
    ensures 2 <= PrimeNumber(t) <= 311 && Passes(PrimeNumber(t))
  {
  }

  lemma PassFrom32(t: nat)
    requires 32 <= t < 48
    ensures 2 <= PrimeNumber(t) <= 311 && Passes(PrimeNumber(t))
  {
  }

  lemma PassFrom48(t: nat)
    requires 48 <= t < 64
    ensures 2 <= PrimeNumber(t) <= 311 && Passes(PrimeNumber(t))
  {
  }

  /** The place of a prime in the list, stretch by stretch. */
  lemma Place0(n: nat) returns (t: nat)
    requires 2 <= n <= 19 && Passes(n)
    ensures 0 <= t < 8 && PrimeNumber(t) == n
  {
    t := if n == 2 then 0 else if n == 3 then 1 else if n == 5 then 2 else if n == 7 then 3 else if n == 11 then 4
        else if n == 13 then 5 else if n == 17 then 6 else 7;
    assert n != 19 ==> !Passes(n) || t < 7;
  }

  lemma Place8(n: nat) returns (t: nat)
    requires 20 <= n <= 37 && Passes(n)
    ensures 8 <= t < 12 && PrimeNumber(t) == n
  {
    t := if n == 23 then 8 else if n == 29 then 9 else if n == 31 then 10 else 11;
    assert n != 37 ==> !Passes(n) || t < 11;
  }

  lemma Place12(n: nat) returns (t: nat)
    requires 38 <= n <= 53 && Passes(n)
    ensures 12 <= t < 16 && PrimeNumber(t) == n
  {
    t := if n == 41 then 12 else if n == 43 then 13 else if n == 47 then 14 else 15;
    assert n != 53 ==> !Passes(n) || t < 15;
  }

  lemma Place16(n: nat) returns (t: nat)
    requires 54 <= n <= 71 && Passes(n)
    ensures 16 <= t < 20 && PrimeNumber(t) == n
  {
    t := if n == 59 then 16 else if n == 61 then 17 else if n == 67 then 18 else 19;
    assert n != 71 ==> !Passes(n) || t < 19;
  }

  lemma Place20(n: nat) returns (t: nat)
    requires 72 <= n <= 89 && Passes(n)
    ensures 20 <= t < 24 && PrimeNumber(t) == n
  {
    t := if n == 73 then 20 else if n == 79 then 21 else if n == 83 then 22 else 23;
    assert n != 89 ==> !Passes(n) || t < 23;
  }

  lemma Place24(n: nat) returns (t: nat)
    requires 90 <= n <= 107 && Passes(n)
    ensures 24 <= t < 28 && PrimeNumber(t) == n
  {
    t := if n == 97 then 24 else if n == 101 then 25 else if n == 103 then 26 else 27;
    assert n != 107 ==> !Passes(n) || t < 27;
  }

  lemma Place28(n: nat) returns (t: nat)
    requires 108 <= n <= 131 && Passes(n)
    ensures 28 <= t < 32 && PrimeNumber(t) == n
  {
    t := if n == 109 then 28 else if n == 113 then 29 else if n == 127 then 30 else 31;
    assert n != 131 ==> !Passes(n) || t < 31;
  }

  lemma Place32(n: nat) returns (t: nat)
    requires 132 <= n <= 151 && Passes(n)
    ensures 32 <= t < 36 && PrimeNumber(t) == n
  {
    t := if n == 137 then 32 else if n == 139 then 33 else if n == 149 then 34 else 35;
    assert n != 151 ==> !Passes(n) || t < 35;
  }

  lemma Place36(n: nat) returns (t: nat)
    requires 152 <= n <= 173 && Passes(n)
    ensures 36 <= t < 40 && PrimeNumber(t) == n
  {
    t := if n == 157 then 36 else if n == 163 then 37 else if n == 167 then 38 else 39;
    assert n != 173 ==> !Passes(n) || t < 39;
  }

  lemma Place40(n: nat) returns (t: nat)
    requires 174 <= n <= 193 && Passes(n)
    ensures 40 <= t < 44 && PrimeNumber(t) == n
  {
    t := if n == 179 then 40 else if n == 181 then 41 else if n == 191 then 42 else 43;
    assert n != 193 ==> !Passes(n) || t < 43;
  }

  lemma Place44(n: nat) returns (t: nat)
    requires 194 <= n <= 223 && Passes(n)
    ensures 44 <= t < 48 && PrimeNumber(t) == n
  {
    t := if n == 197 then 44 else if n == 199 then 45 else if n == 211 then 46 else 47;
    assert n != 223 ==> !Passes(n) || t < 47;
  }

  lemma Place48(n: nat) returns (t: nat)
    requires 224 <= n <= 239 && Passes(n)
    ensures 48 <= t < 52 && PrimeNumber(t) == n
  {
    t := if n == 227 then 48 else if n == 229 then 49 else if n == 233 then 50 else 51;
    assert n != 239 ==> !Passes(n) || t < 51;
  }

  lemma Place52(n: nat) returns (t: nat)
    requires 240 <= n <= 263 && Passes(n)
    ensures 52 <= t < 56 && PrimeNumber(t) == n
  {
    t := if n == 241 then 52 else if n == 251 then 53 else if n == 257 then 54 else 55;
    assert n != 263 ==> !Passes(n) || t < 55;
  }

  lemma Place56(n: nat) returns (t: nat)
    requires 264 <= n <= 281 && Passes(n)
    ensures 56 <= t < 60 && PrimeNumber(t) == n
  {
    t := if n == 269 then 56 else if n == 271 then 57 else if n == 277 then 58 else 59;
    assert n != 281 ==> !Passes(n) || t < 59;
  }

  lemma Place60(n: nat) returns (t: nat)
    requires 282 <= n <= 311 && Passes(n)
    ensures 60 <= t < 64 && PrimeNumber(t) == n
  {
    t := if n == 283 then 60 else if n == 293 then 61 else if n == 307 then 62 else 63;
    assert n != 311 ==> !Passes(n) || t < 63;
  }

  lemma Place(n: nat) returns (t: nat)
    requires 2 <= n <= 311 && Passes(n)
    ensures t < 64 && PrimeNumber(t) == n
  {
    hide Passes;

    if n <= 19 {
      t := Place0(n);
    } else if n <= 37 {
      t := Place8(n);
    } else if n <= 53 {
      t := Place12(n);
    } else if n <= 71 {
      t := Place16(n);
    } else if n <= 89 {
      t := Place20(n);
    } else if n <= 107 {
      t := Place24(n);
    } else if n <= 131 {
      t := Place28(n);
    } else if n <= 151 {
      t := Place32(n);
    } else if n <= 173 {
      t := Place36(n);
    } else if n <= 193 {
      t := Place40(n);
    } else if n <= 223 {
      t := Place44(n);
    } else if n <= 239 {
      t := Place48(n);
    } else if n <= 263 {
      t := Place52(n);
    } else if n <= 281 {
      t := Place56(n);
    } else {
      t := Place60(n);
    }
  }

  lemma Pass(t: nat)
    requires t < 64
    ensures 2 <= PrimeNumber(t) <= 311 && Passes(PrimeNumber(t))
  {
    hide Passes;
    if t < 16 {
      PassFrom0(t);
    } else if t < 32 {
      PassFrom16(t);
    } else if t < 48 {
      PassFrom32(t);
    } else {
      PassFrom48(t);
    }
  }

  lemma Ascending(s: nat, t: nat)
    requires s < t < 64
    ensures PrimeNumber(s) < PrimeNumber(t)
    decreases t
  {
    assert PrimeNumber(t - 1) < PrimeNumber(t);
    if s < t - 1 {
      Ascending(s, t - 1);
    }
  }

  /** These are the first 64 primes: every prime up to 311, nothing else, and in ascending order. */
  lemma FirstPrimes(n: nat)
    requires n <= 311
    ensures Prime(n) <==> exists t: nat :: t < 64 && PrimeNumber(t) == n
    ensures forall s, t | 0 <= s < t < 64 :: PrimeNumber(s) < PrimeNumber(t)
  {
    hide Prime, Passes, PrimeNumber;
    forall s, t | 0 <= s < t < 64
      ensures PrimeNumber(s) < PrimeNumber(t)
    {
      Ascending(s, t);
    }
    if Prime(n) {
      PrimePasses(n);
      var t := Place(n);
    }
    if t: nat :| t < 64 && PrimeNumber(t) == n {
      Pass(t);
      PassesIsPrime(n);
    }
  }

  // ---------------------------------------------------------------- the roots

  /** k is 2^32 times the cube root of p, rounded down. */
  ghost predicate CubeRoot(p: nat, k: nat) {
    k * k * k <= p * 0x1_00000000_00000000_00000000 < (k + 1) * (k + 1) * (k + 1)
  }

  /** k is 2^32 times the square root of p, rounded down. */
  ghost predicate SquareRoot(p: nat, k: nat) {
    k * k <= p * 0x1_00000000_00000000 < (k + 1) * (k + 1)
  }

  /** 2^32 times the number with whole part c and the first 32 fractional bits x. */
  function Fixed(c: nat, x: bv32): nat {
    c * 0x1_0000_0000 + x as nat
  }

  lemma Cubes0()
    ensures CubeRoot(PrimeNumber(0), Fixed(1, K(0)))
    ensures CubeRoot(PrimeNumber(1), Fixed(1, K(1)))
    ensures CubeRoot(PrimeNumber(2), Fixed(1, K(2)))
    ensures CubeRoot(PrimeNumber(3), Fixed(1, K(3)))
    ensures CubeRoot(PrimeNumber(4), Fixed(2, K(4)))
    ensures CubeRoot(PrimeNumber(5), Fixed(2, K(5)))
    ensures CubeRoot(PrimeNumber(6), Fixed(2, K(6)))
    ensures CubeRoot(PrimeNumber(7), Fixed(2, K(7)))
  {
    assert K(0) as nat == 0x428a2f98;
    assert K(1) as nat == 0x71374491;
    assert K(2) as nat == 0xb5c0fbcf;
    assert K(3) as nat == 0xe9b5dba5;
    assert K(4) as nat == 0x3956c25b;
    assert K(5) as nat == 0x59f111f1;
    assert K(6) as nat == 0x923f82a4;
    assert K(7) as nat == 0xab1c5ed5;
  }

  lemma Cubes8()
    ensures CubeRoot(PrimeNumber(8), Fixed(2, K(8)))
    ensures CubeRoot(PrimeNumber(9), Fixed(3, K(9)))
    ensures CubeRoot(PrimeNumber(10), Fixed(3, K(10)))
    ensures CubeRoot(PrimeNumber(11), Fixed(3, K(11)))
    ensures CubeRoot(PrimeNumber(12), Fixed(3, K(12)))
    ensures CubeRoot(PrimeNumber(13), Fixed(3, K(13)))
    ensures CubeRoot(PrimeNumber(14), Fixed(3, K(14)))
    ensures CubeRoot(PrimeNumber(15), Fixed(3, K(15)))
  {
    assert K(8) as nat == 0xd807aa98;
    assert K(9) as nat == 0x12835b01;
    assert K(10) as nat == 0x243185be;
    assert K(11) as nat == 0x550c7dc3;
    assert K(12) as nat == 0x72be5d74;
    assert K(13) as nat == 0x80deb1fe;
    assert K(14) as nat == 0x9bdc06a7;
    assert K(15) as nat == 0xc19bf174;
  }

  lemma Cubes16()
    ensures CubeRoot(PrimeNumber(16), Fixed(3, K(16)))
    ensures CubeRoot(PrimeNumber(17), Fixed(3, K(17)))
    ensures CubeRoot(PrimeNumber(18), Fixed(4, K(18)))
    ensures CubeRoot(PrimeNumber(19), Fixed(4, K(19)))
    ensures CubeRoot(PrimeNumber(20), Fixed(4, K(20)))
    ensures CubeRoot(PrimeNumber(21), Fixed(4, K(21)))
    ensures CubeRoot(PrimeNumber(22), Fixed(4, K(22)))
    ensures CubeRoot(PrimeNumber(23), Fixed(4, K(23)))
  {
    assert K(16) as nat == 0xe49b69c1;
    assert K(17) as nat == 0xefbe4786;
    assert K(18) as nat == 0x0fc19dc6;
    assert K(19) as nat == 0x240ca1cc;
    assert K(20) as nat == 0x2de92c6f;
    assert K(21) as nat == 0x4a7484aa;
    assert K(22) as nat == 0x5cb0a9dc;
    assert K(23) as nat == 0x76f988da;
  }

  lemma Cubes24()
    ensures CubeRoot(PrimeNumber(24), Fixed(4, K(24)))
    ensures CubeRoot(PrimeNumber(25), Fixed(4, K(25)))
    ensures CubeRoot(PrimeNumber(26), Fixed(4, K(26)))
    ensures CubeRoot(PrimeNumber(27), Fixed(4, K(27)))
    ensures CubeRoot(PrimeNumber(28), Fixed(4, K(28)))
    ensures CubeRoot(PrimeNumber(29), Fixed(4, K(29)))
    ensures CubeRoot(PrimeNumber(30), Fixed(5, K(30)))
    ensures CubeRoot(PrimeNumber(31), Fixed(5, K(31)))
  {
    assert K(24) as nat == 0x983e5152;
    assert K(25) as nat == 0xa831c66d;
    assert K(26) as nat == 0xb00327c8;
    assert K(27) as nat == 0xbf597fc7;
    assert K(28) as nat == 0xc6e00bf3;
    assert K(29) as nat == 0xd5a79147;
    assert K(30) as nat == 0x06ca6351;
    assert K(31) as nat == 0x14292967;
  }

  lemma Cubes32()
    ensures CubeRoot(PrimeNumber(32), Fixed(5, K(32)))
    ensures CubeRoot(PrimeNumber(33), Fixed(5, K(33)))
    ensures CubeRoot(PrimeNumber(34), Fixed(5, K(34)))
    ensures CubeRoot(PrimeNumber(35), Fixed(5, K(35)))
    ensures CubeRoot(PrimeNumber(36), Fixed(5, K(36)))
    ensures CubeRoot(PrimeNumber(37), Fixed(5, K(37)))
    ensures CubeRoot(PrimeNumber(38), Fixed(5, K(38)))
    ensures CubeRoot(PrimeNumber(39), Fixed(5, K(39)))
  {
    assert K(32) as nat == 0x27b70a85;
    assert K(33) as nat == 0x2e1b2138;
    assert K(34) as nat == 0x4d2c6dfc;
    assert K(35) as nat == 0x53380d13;
    assert K(36) as nat == 0x650a7354;
    assert K(37) as nat == 0x766a0abb;
    assert K(38) as nat == 0x81c2c92e;
    assert K(39) as nat == 0x92722c85;
  }

  lemma Cubes40()
    ensures CubeRoot(PrimeNumber(40), Fixed(5, K(40)))
    ensures CubeRoot(PrimeNumber(41), Fixed(5, K(41)))
    ensures CubeRoot(PrimeNumber(42), Fixed(5, K(42)))
    ensures CubeRoot(PrimeNumber(43), Fixed(5, K(43)))
    ensures CubeRoot(PrimeNumber(44), Fixed(5, K(44)))
    ensures CubeRoot(PrimeNumber(45), Fixed(5, K(45)))
    ensures CubeRoot(PrimeNumber(46), Fixed(5, K(46)))
    ensures CubeRoot(PrimeNumber(47), Fixed(6, K(47)))
  {
    assert K(40) as nat == 0xa2bfe8a1;
    assert K(41) as nat == 0xa81a664b;
    assert K(42) as nat == 0xc24b8b70;
    assert K(43) as nat == 0xc76c51a3;
    assert K(44) as nat == 0xd192e819;
    assert K(45) as nat == 0xd6990624;
    assert K(46) as nat == 0xf40e3585;
    assert K(47) as nat == 0x106aa070;
  }

  lemma Cubes48()
    ensures CubeRoot(PrimeNumber(48), Fixed(6, K(48)))
    ensures CubeRoot(PrimeNumber(49), Fixed(6, K(49)))
    ensures CubeRoot(PrimeNumber(50), Fixed(6, K(50)))
    ensures CubeRoot(PrimeNumber(51), Fixed(6, K(51)))
    ensures CubeRoot(PrimeNumber(52), Fixed(6, K(52)))
    ensures CubeRoot(PrimeNumber(53), Fixed(6, K(53)))
    ensures CubeRoot(PrimeNumber(54), Fixed(6, K(54)))
    ensures CubeRoot(PrimeNumber(55), Fixed(6, K(55)))
  {
    assert K(48) as nat == 0x19a4c116;
    assert K(49) as nat == 0x1e376c08;
    assert K(50) as nat == 0x2748774c;
    assert K(51) as nat == 0x34b0bcb5;
    assert K(52) as nat == 0x391c0cb3;
    assert K(53) as nat == 0x4ed8aa4a;
    assert K(54) as nat == 0x5b9cca4f;
    assert K(55) as nat == 0x682e6ff3;
  }

  lemma Cubes56()
    ensures CubeRoot(PrimeNumber(56), Fixed(6, K(56)))
    ensures CubeRoot(PrimeNumber(57), Fixed(6, K(57)))
    ensures CubeRoot(PrimeNumber(58), Fixed(6, K(58)))
    ensures CubeRoot(PrimeNumber(59), Fixed(6, K(59)))
    ensures CubeRoot(PrimeNumber(60), Fixed(6, K(60)))
    ensures CubeRoot(PrimeNumber(61), Fixed(6, K(61)))
    ensures CubeRoot(PrimeNumber(62), Fixed(6, K(62)))
    ensures CubeRoot(PrimeNumber(63), Fixed(6, K(63)))
  {
    assert K(56) as nat == 0x748f82ee;
    assert K(57) as nat == 0x78a5636f;
    assert K(58) as nat == 0x84c87814;
    assert K(59) as nat == 0x8cc70208;
    assert K(60) as nat == 0x90befffa;
    assert K(61) as nat == 0xa4506ceb;
    assert K(62) as nat == 0xbef9a3f7;
    assert K(63) as nat == 0xc67178f2;
  }

  /** Section 4.2.2: the constants are the first 32 fractional bits of the cube roots of the first 64 primes. */
  lemma Constants(t: nat) returns (c: nat)
    requires t < 64
    ensures CubeRoot(PrimeNumber(t), Fixed(c, K(t))) && Constant(t).bits == K(t)
  {
    hide CubeRoot, PrimeNumber, Fixed, K;
    c := if t < 4 then 1 else if t < 9 then 2 else if t < 18 then 3 else if t < 30 then 4 else if t < 47 then 5 else 6;
    if t < 8 {
      Cubes0();
    } else if t < 16 {
      Cubes8();
    } else if t < 24 {
      Cubes16();
    } else if t < 32 {
      Cubes24();
    } else if t < 40 {
      Cubes32();
    } else if t < 48 {
      Cubes40();
    } else if t < 56 {
      Cubes48();
    } else {
      Cubes56();
    }
  }

  /** Section 5.3.3: the initial hash is the first 32 fractional bits of the square roots of the first eight primes. */
  lemma InitialWords(t: nat) returns (c: nat)
    requires t < 8
    ensures SquareRoot(PrimeNumber(t), Fixed(c, InitialHash()[t].bits))
  {
    hide SquareRoot, PrimeNumber, Fixed, InitialHash;
    c := if t < 2 then 1 else if t < 4 then 2 else if t < 6 then 3 else 4;
    Squares();
  }

  lemma Squares()
    ensures SquareRoot(PrimeNumber(0), Fixed(1, InitialHash()[0].bits))
    ensures SquareRoot(PrimeNumber(1), Fixed(1, InitialHash()[1].bits))
    ensures SquareRoot(PrimeNumber(2), Fixed(2, InitialHash()[2].bits))
    ensures SquareRoot(PrimeNumber(3), Fixed(2, InitialHash()[3].bits))
    ensures SquareRoot(PrimeNumber(4), Fixed(3, InitialHash()[4].bits))
    ensures SquareRoot(PrimeNumber(5), Fixed(3, InitialHash()[5].bits))
    ensures SquareRoot(PrimeNumber(6), Fixed(4, InitialHash()[6].bits))
    ensures SquareRoot(PrimeNumber(7), Fixed(4, InitialHash()[7].bits))
  {
    assert InitialHash()[0].bits as nat == 0x6a09e667;
    assert InitialHash()[1].bits as nat == 0xbb67ae85;
    assert InitialHash()[2].bits as nat == 0x3c6ef372;
    assert InitialHash()[3].bits as nat == 0xa54ff53a;
    assert InitialHash()[4].bits as nat == 0x510e527f;
    assert InitialHash()[5].bits as nat == 0x9b05688c;
    assert InitialHash()[6].bits as nat == 0x1f83d9ab;
    assert InitialHash()[7].bits as nat == 0x5be0cd19;
  }

  /** A number has one such root, so these bits are determined by the primes. */
  lemma RootUnique(p: nat, c: nat, x: bv32, d: nat, y: bv32)
    requires || (CubeRoot(p, Fixed(c, x)) && CubeRoot(p, Fixed(d, y)))
             || (SquareRoot(p, Fixed(c, x)) && SquareRoot(p, Fixed(d, y)))
    ensures c == d && x == y
  {
    hide Fixed;
    OneRoot(p, Fixed(c, x), Fixed(d, y));
    OneRoot(p, Fixed(d, y), Fixed(c, x));
    FixedParts(c, x, d, y);
  }

  lemma FixedParts(c: nat, x: bv32, d: nat, y: bv32)
    requires Fixed(c, x) == Fixed(d, y)
    ensures c == d && x == y
  {
    TwoParts(c, x as nat, d, y as nat);
    SameWord(x, y);
  }

  lemma TwoParts(c: nat, a: nat, d: nat, b: nat)
    requires a < 0x1_0000_0000 && b < 0x1_0000_0000 && c * 0x1_0000_0000 + a == d * 0x1_0000_0000 + b
    ensures c == d && a == b
  {
  }

  lemma SameWord(x: bv32, y: bv32)
    requires x as nat == y as nat
    ensures x == y
  {
    assert (x as nat) as bv32 == x && (y as nat) as bv32 == y;
  }

  lemma OneRoot(p: nat, a: nat, b: nat)
    requires (CubeRoot(p, a) && CubeRoot(p, b)) || (SquareRoot(p, a) && SquareRoot(p, b))
    ensures b <= a
  {
    if a < b {
      Products(a + 1, b, a + 1, b);
      Products((a + 1) * (a + 1), b * b, a + 1, b);
      assert false;
    }
  }

  lemma Products(a: nat, b: nat, c: nat, d: nat)
    requires a <= b && c <= d
    ensures a * c <= b * d
  {
    assert a * c <= b * c && b * c <= b * d;
  }
}
