/** The hash of FIPS 180-4, sections 4.1.2, 4.2.2, 5.1.1, 5.2.1, 5.3.3 and 6.2.2. */
module Sha256Spec {
  /** Eight bits, and a word of 32 bits. */
  datatype Byte = Byte(bits: bv8)

  datatype Word = Word(bits: bv32)

  /** Section 4.1.2; n is between 1 and 31. */
  function Rotr(x: bv32, n: bv6): bv32
    requires 0 < n < 32
  {
    (x >> n) | (x << (32 - n))
  }

  function Ch(x: bv32, y: bv32, z: bv32): bv32 {
    (x & y) ^ (!x & z)
  }

  function Maj(x: bv32, y: bv32, z: bv32): bv32 {
    (x & y) ^ (x & z) ^ (y & z)
  }

  function BigSigma0(x: bv32): bv32 {
    Rotr(x, 2) ^ Rotr(x, 13) ^ Rotr(x, 22)
  }

  function BigSigma1(x: bv32): bv32 {
    Rotr(x, 6) ^ Rotr(x, 11) ^ Rotr(x, 25)
  }

  function SmallSigma0(x: bv32): bv32 {
    Rotr(x, 7) ^ Rotr(x, 18) ^ (x >> 3)
  }

  function SmallSigma1(x: bv32): bv32 {
    Rotr(x, 17) ^ Rotr(x, 19) ^ (x >> 10)
  }

  /** Section 4.2.2, in four rows of 16. */
  function K0(t: nat): bv32
    requires t < 16
  {
    match t
    case 0 => 0x428a2f98 case 1 => 0x71374491 case 2 => 0xb5c0fbcf case 3 => 0xe9b5dba5
    case 4 => 0x3956c25b case 5 => 0x59f111f1 case 6 => 0x923f82a4 case 7 => 0xab1c5ed5
    case 8 => 0xd807aa98 case 9 => 0x12835b01 case 10 => 0x243185be case 11 => 0x550c7dc3
    case 12 => 0x72be5d74 case 13 => 0x80deb1fe case 14 => 0x9bdc06a7 case _ => 0xc19bf174
  }

  function K16(t: nat): bv32
    requires t < 16
  {
    match t
    case 0 => 0xe49b69c1 case 1 => 0xefbe4786 case 2 => 0x0fc19dc6 case 3 => 0x240ca1cc
    case 4 => 0x2de92c6f case 5 => 0x4a7484aa case 6 => 0x5cb0a9dc case 7 => 0x76f988da
    case 8 => 0x983e5152 case 9 => 0xa831c66d case 10 => 0xb00327c8 case 11 => 0xbf597fc7
    case 12 => 0xc6e00bf3 case 13 => 0xd5a79147 case 14 => 0x06ca6351 case _ => 0x14292967
  }

  function K32(t: nat): bv32
    requires t < 16
  {
    match t
    case 0 => 0x27b70a85 case 1 => 0x2e1b2138 case 2 => 0x4d2c6dfc case 3 => 0x53380d13
    case 4 => 0x650a7354 case 5 => 0x766a0abb case 6 => 0x81c2c92e case 7 => 0x92722c85
    case 8 => 0xa2bfe8a1 case 9 => 0xa81a664b case 10 => 0xc24b8b70 case 11 => 0xc76c51a3
    case 12 => 0xd192e819 case 13 => 0xd6990624 case 14 => 0xf40e3585 case _ => 0x106aa070
  }

  function K48(t: nat): bv32
    requires t < 16
  {
    match t
    case 0 => 0x19a4c116 case 1 => 0x1e376c08 case 2 => 0x2748774c case 3 => 0x34b0bcb5
    case 4 => 0x391c0cb3 case 5 => 0x4ed8aa4a case 6 => 0x5b9cca4f case 7 => 0x682e6ff3
    case 8 => 0x748f82ee case 9 => 0x78a5636f case 10 => 0x84c87814 case 11 => 0x8cc70208
    case 12 => 0x90befffa case 13 => 0xa4506ceb case 14 => 0xbef9a3f7 case _ => 0xc67178f2
  }

  function K(t: nat): bv32
    requires t < 64
  {
    if t < 16 then K0(t)
    else if t < 32 then K16(t - 16)
    else if t < 48 then K32(t - 32)
    else K48(t - 48)
  }

  function Constant(t: nat): Word
    requires t < 64
  {
    Word(K(t))
  }

  /** Section 5.3.3. */
  function InitialHash(): (r: seq<Word>)
    ensures |r| == 8
  {
    [
      Word(0x6a09e667), Word(0xbb67ae85), Word(0x3c6ef372), Word(0xa54ff53a),
      Word(0x510e527f), Word(0x9b05688c), Word(0x1f83d9ab), Word(0x5be0cd19)
    ]
  }

  /** Bytes make a word, and a word makes bytes, the highest first (sections 3.1 and 5.2.1). */
  function Pack(a: Byte, b: Byte, c: Byte, d: Byte): Word {
    Word((d.bits as bv32) | ((c.bits as bv32) << 8) | ((b.bits as bv32) << 16) | ((a.bits as bv32) << 24))
  }

  function Unpack(x: Word): (r: seq<Byte>)
    ensures |r| == 4
  {
    var b := x.bits;
    [Byte((b >> 24) as bv8), Byte(((b >> 16) & 0xff) as bv8), Byte(((b >> 8) & 0xff) as bv8), Byte((b & 0xff) as bv8)]
  }

  lemma PackUnpack(x: Word)
    ensures Pack(Unpack(x)[0], Unpack(x)[1], Unpack(x)[2], Unpack(x)[3]) == x
  {
  }

  /** Addition modulo 2^32, section 3.2. */
  function Add(x: Word, y: Word): Word {
    Word(x.bits + y.bits)
  }

  function Next(w2: Word, w7: Word, w15: Word, w16: Word): Word {
    Word(SmallSigma1(w2.bits) + w7.bits + SmallSigma0(w15.bits) + w16.bits)
  }

  /** The message schedule, section 6.2.2 step 1. */
  function Schedule(block: seq<Byte>, t: nat): Word
    requires |block| == 64 && t < 64
  {
    if t < 16 then Pack(block[4 * t], block[4 * t + 1], block[4 * t + 2], block[4 * t + 3])
    else Next(Schedule(block, t - 2), Schedule(block, t - 7), Schedule(block, t - 15), Schedule(block, t - 16))
  }

  function T1(e: Word, f: Word, g: Word, h: Word, k: Word, w: Word): Word {
    Word(h.bits + BigSigma1(e.bits) + Ch(e.bits, f.bits, g.bits) + k.bits + w.bits)
  }

  function T2(a: Word, b: Word, c: Word): Word {
    Word(BigSigma0(a.bits) + Maj(a.bits, b.bits, c.bits))
  }

  /** One round, section 6.2.2 step 3, on the working variables a to h. */
  function Round(v: seq<Word>, k: Word, w: Word): (r: seq<Word>)
    requires |v| == 8
    ensures |r| == 8
  {
    var t1 := T1(v[4], v[5], v[6], v[7], k, w);
    [Add(t1, T2(v[0], v[1], v[2])), v[0], v[1], v[2], Add(v[3], t1), v[4], v[5], v[6]]
  }

  function Rounds(h: seq<Word>, block: seq<Byte>, t: nat): (r: seq<Word>)
    requires |h| == 8 && |block| == 64 && t <= 64
    ensures |r| == 8
  {
    if t == 0 then h else Round(Rounds(h, block, t - 1), Constant(t - 1), Schedule(block, t - 1))
  }

  function Compress(h: seq<Word>, block: seq<Byte>): (r: seq<Word>)
    requires |h| == 8 && |block| == 64
    ensures |r| == 8
  {
    var v := Rounds(h, block, 64);
    seq(8, k requires 0 <= k < 8 => Add(h[k], v[k]))
  }

  /** The blocks in turn; a tail shorter than a block is left over. */
  function HashBlocks(h: seq<Word>, m: seq<Byte>): (r: seq<Word>)
    requires |h| == 8
    ensures |r| == 8
    decreases |m|
  {
    if |m| < 64 then h else HashBlocks(Compress(h, m[..64]), m[64..])
  }

  /** The zero bytes of the padding: as few as make whole blocks (section 5.1.1). */
  function ZeroBytes(len: nat): (z: nat)
    ensures z < 64 && (len + 1 + z + 8) % 64 == 0
  {
    (55 - len) % 64
  }

  lemma FewestZeroBytes(len: nat, z: nat)
    requires (len + 1 + z + 8) % 64 == 0
    ensures ZeroBytes(len) <= z
  {
  }

  function Zeros(n: nat): (r: seq<Byte>)
    ensures |r| == n && forall k | 0 <= k < n :: r[k] == Byte(0)
  {
    seq(n, _ => Byte(0))
  }

  function BitIf(b: bool, bit: bv8): bv8 {
    if b then bit else 0
  }

  /** The low eight bits of a number. */
  function ByteOf(n: nat): Byte {
    var m := n % 256;
    Byte(BitIf(m % 2 == 1, 1) | BitIf(m / 2 % 2 == 1, 2) | BitIf(m / 4 % 2 == 1, 4) | BitIf(m / 8 % 2 == 1, 8)
         | BitIf(m / 16 % 2 == 1, 16) | BitIf(m / 32 % 2 == 1, 32) | BitIf(m / 64 % 2 == 1, 64)
         | BitIf(m / 128 % 2 == 1, 128))
  }

  /** The low 32 bits of a number, the highest byte first. */
  function LengthField(n: nat): (r: seq<Byte>)
    ensures |r| == 4
  {
    [ByteOf(n / 0x100_0000), ByteOf(n / 0x1_0000), ByteOf(n / 0x100), ByteOf(n)]
  }

  /** Section 5.1.1; the length takes 64 bits. */
  function Padded(m: seq<Byte>): seq<Byte> {
    m + [Byte(0x80)] + Zeros(ZeroBytes(|m|)) + LengthField(8 * |m| / 0x1_0000_0000) + LengthField(8 * |m|)
  }

  function Bytes(h: seq<Word>): (r: seq<Byte>)
    ensures |r| == 4 * |h|
  {
    if h == [] then [] else Unpack(h[0]) + Bytes(h[1..])
  }

  /** The message digest, for messages below 2^61 bytes. */
  function Hash(m: seq<Byte>): (r: seq<Byte>)
    ensures |r| == 32
  {
    Bytes(HashBlocks(InitialHash(), Padded(m)))
  }
}
