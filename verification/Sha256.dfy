/** The streaming hash (sha256.cpp) against FIPS 180-4. */
module Sha256 {
  import opened Sha256Spec
  import opened Bits

  /** What an unsigned int keeps. */
  function Low32(n: nat): (r: nat)
    ensures r < 0x1_0000_0000
  {
    n % 0x1_0000_0000
  }

  lemma Low32Sum(x: nat, y: nat)
    ensures Low32(Low32(x) + y) == Low32(x + y)
  {
    var q := x / 0x1_0000_0000;
    assert x + y == (Low32(x) + y) + 0x1_0000_0000 * q;
  }

  lemma Low32Eight(x: nat)
    ensures Low32(8 * Low32(x)) == Low32(8 * x)
  {
    var M, q := 0x1_0000_0000, x / 0x1_0000_0000;
    var y := 8 * Low32(x);
    DivModBound(x, M);
    DivModBound(y, M);
    MulDivMod(8 * x, M, y / M + 8 * q, y % M);
  }

  // ---------------------------------------------------------------- blocks and padding

  /** A whole number of blocks. */
  ghost predicate Whole(m: seq<Byte>) {
    |m| % 64 == 0
  }

  /** Hashing a whole number of blocks first and the rest later is hashing all of it. */
  lemma {:induction false} HashSplit(h: seq<Word>, a: seq<Byte>, b: seq<Byte>)
    requires |h| == 8 && Whole(a)
    ensures HashBlocks(h, a + b) == HashBlocks(HashBlocks(h, a), b)
    decreases |a|
  {
    hide Compress;
    if a == [] {
      assert a + b == b;
    } else {
      assert (a + b)[..64] == a[..64] && (a + b)[64..] == a[64..] + b;
      HashSplit(Compress(h, a[..64]), a[64..], b);
    }
  }

  lemma HashOne(h: seq<Word>, block: seq<Byte>)
    requires |h| == 8 && |block| == 64
    ensures HashBlocks(h, block) == Compress(h, block)
  {
    hide Compress;
    assert block[..64] == block;
  }

  /** The padding the code writes: its length field is the low 32 bits only (sha256.cpp:100-107). */
  function CodePadded(m: seq<Byte>): seq<Byte> {
    m + [Byte(0x80)] + Zeros(ZeroBytes(|m|) + 4) + LengthField(8 * |m|)
  }

  const ZERO4: seq<Byte> := [Byte(0), Byte(0), Byte(0), Byte(0)]

  lemma NoBits(a: bool, b: bool, c: bool, d: bool, e: bool, f: bool, g: bool, h: bool)
    ensures BitIf(a, 1) | BitIf(b, 2) | BitIf(c, 4) | BitIf(d, 8) | BitIf(e, 16) | BitIf(f, 32) | BitIf(g,
        64) | BitIf(h, 128) == 0
            <==> !a && !b && !c && !d && !e && !f && !g && !h
  {
  }

  lemma BinaryZero(m: nat)
    requires m < 256
    ensures m == 0 <==> m % 2 == 0 && m / 2 % 2 == 0 && m / 4 % 2 == 0 && m / 8 % 2 == 0 && m / 16 % 2 == 0
                        && m / 32 % 2 == 0 && m / 64 % 2 == 0 && m / 128 % 2 == 0
  {
  }

  lemma ByteZero(n: nat)
    ensures ByteOf(n) == Byte(0) <==> n % 256 == 0
  {
    hide BitIf;
    var m := n % 256;
    NoBits(m % 2 == 1, m / 2 % 2 == 1, m / 4 % 2 == 1, m / 8 % 2 == 1, m / 16 % 2 == 1, m / 32 % 2 == 1, m / 64 % 2
           == 1,
           m / 128 % 2 == 1);
    BinaryZero(m);
  }

  /** The four base-256 digits. */
  lemma Digits(n: nat)
    ensures n % 0x1_0000_0000 == n % 256 + 256 * ((n / 0x100) % 256) + 0x1_0000 * ((n / 0x1_0000) % 256)
                        + 0x100_0000 * ((n / 0x100_0000) % 256)
  {
    var n1 := n / 256;
    var n2 := n1 / 256;
    var n3 := n2 / 256;
    assert n2 == n / 0x1_0000;
    assert n3 == n / 0x100_0000;
    assert n3 / 256 == n / 0x1_0000_0000;
  }

  lemma FieldZero(n: nat)
    ensures LengthField(n) == ZERO4 <==> n % 0x1_0000_0000 == 0
  {
    hide ByteOf;
    ByteZero(n / 0x100_0000);
    ByteZero(n / 0x1_0000);
    ByteZero(n / 0x100);
    ByteZero(n);
    Digits(n);
    FieldIs(n);
  }

  lemma FieldIs(n: nat)
    ensures LengthField(n) == ZERO4
            <==> (&& ByteOf(n / 0x100_0000) == Byte(0) && ByteOf(n / 0x1_0000) == Byte(0)
                  && ByteOf(n / 0x100) == Byte(0) && ByteOf(n) == Byte(0))
  {
    hide ByteOf;
    var f := LengthField(n);
    assert f == ZERO4 <==> f[0] == Byte(0) && f[1] == Byte(0) && f[2] == Byte(0) && f[3] == Byte(0);
  }

  lemma MiddleDecides(a: seq<Byte>, x: seq<Byte>, y: seq<Byte>, b: seq<Byte>)
    requires |x| == |y|
    ensures a + x + b == a + y + b <==> x == y
  {
    assert (a + x + b)[|a|..|a| + |x|] == x;
    assert (a + y + b)[|a|..|a| + |x|] == y;
  }

  /**
   * That is the standard's padding exactly for the messages below 2^29 bytes (among those the standard's 64-bit length
   * field can hold).
   */
  lemma PaddingExact(m: seq<Byte>)
    requires |m| < 0x2000_0000_0000_0000
    ensures CodePadded(m) == Padded(m) <==> |m| < 0x2000_0000
  {
    hide LengthField, ZeroBytes;
    var bits := 8 * |m|;
    var z := ZeroBytes(|m|);
    var front := m + [Byte(0x80)] + Zeros(z);
    assert m + [Byte(0x80)] + Zeros(z + 4) == front + ZERO4;
    FieldZero(bits / 0x1_0000_0000);
    MiddleDecides(front, ZERO4, LengthField(bits / 0x1_0000_0000), LengthField(bits));
    HighBits(|m|);
  }

  lemma HighBits(n: nat)
    requires n < 0x2000_0000_0000_0000
    ensures (8 * n / 0x1_0000_0000) % 0x1_0000_0000 == 0 <==> n < 0x2000_0000
  {
  }

  /** The hash as the code pads it. */
  function CodeHash(m: seq<Byte>): (r: seq<Byte>)
    ensures |r| == 32
  {
    Bytes(HashBlocks(InitialHash(), CodePadded(m)))
  }

  /** The last blocks: what is left of the message, one or two blocks long when padded. */
  lemma LastBlocks(m: seq<Byte>, done: nat)
    requires done <= |m| && done % 64 == 0 && |m| - done < 64
    ensures (var len := |m| - done; var pm := if 55 < len then 128 else 64;
             m[done..] + [Byte(0x80)] + Zeros(pm - len - 5) + LengthField(8 * |m|) == CodePadded(m)[done..])
  {
    hide LengthField;
    var len := |m| - done;
    var z := ZeroBytes(|m|);
    assert z == if 55 < len then 119 - len else 55 - len;
  }

  // ---------------------------------------------------------------- the class

  /** What the object holds once fed has been passed in: the hash of its whole blocks, and the rest of it. */
  ghost predicate Holds(fed: seq<Byte>, h: seq<Word>, block: seq<Byte>, len: nat, total: nat) {
    && |h| == 8 && |block| == 128 && len < 64 && len <= |fed| && Whole(fed[..|fed| - len])
    && total == Low32(|fed| - len) && block[..len] == fed[|fed| - len..]
    && h == HashBlocks(InitialHash(), fed[..|fed| - len])
  }

  lemma ShortStep(fed: seq<Byte>, h: seq<Word>, block: seq<Byte>, len: nat, total: nat, message: seq<Byte>,
                  after: seq<Byte>)
    requires Holds(fed, h, block, len, total) && len + |message| < 64
    requires |after| == 128 && after[..len + |message|] == block[..len] + message
    ensures Holds(fed + message, h, after, len + |message|, total)
  {
    hide InitialHash, HashBlocks;
    var done := |fed| - len;
    assert (fed + message)[..done] == fed[..done];
    assert (fed + message)[done..] == fed[done..] + message;
  }

  /**
   * The block completed from the buffer and those taken straight from the message are the next of what was fed, and
   * what is left of the message is what is left of that.
   */
  lemma LongStep(done: seq<Byte>, buffered: seq<Byte>, h: seq<Word>, total: nat, head: seq<Byte>, blocks: seq<Byte>,
                 tail: seq<Byte>, after: seq<Byte>)
    requires Whole(done) && |h| == 8 && h == HashBlocks(InitialHash(), done) && total == Low32(|done|)
    requires |buffered| + |head| == 64 && Whole(blocks) && |tail| < 64 && |after| == 128 && after[..|tail|] == tail
    ensures Holds(done + buffered + (head + blocks + tail), HashBlocks(HashBlocks(h, buffered + head), blocks), after,
                  |tail|,
                  Low32(total + (64 + |blocks|)))
  {
    hide InitialHash, HashBlocks, Holds, Low32, Whole;
    var block, total' := buffered + head, Low32(total + (64 + |blocks|));
    ThreeParts(done, block, blocks);
    NewTotal(total, done, block, blocks);
    HoldsJoined(done + block + blocks, tail, HashBlocks(HashBlocks(h, block), blocks), after, total');
    Regroup(done, buffered, head, blocks, tail);
  }

  lemma NewTotal(total: nat, a: seq<Byte>, b: seq<Byte>, c: seq<Byte>)
    requires total == Low32(|a|) && |b| == 64
    ensures Low32(total + (64 + |c|)) == Low32(|a + b + c|)
  {
    hide Low32;
    Low32Sum(|a|, 64 + |c|);
    assert |a + b + c| == |a| + (64 + |c|);
  }

  lemma Regroup(done: seq<Byte>, buffered: seq<Byte>, head: seq<Byte>, blocks: seq<Byte>, tail: seq<Byte>)
    ensures done + buffered + (head + blocks + tail) == done + (buffered + head) + blocks + tail
  {
  }

  lemma ThreeParts(a: seq<Byte>, b: seq<Byte>, c: seq<Byte>)
    requires Whole(a) && |b| == 64 && Whole(c)
    ensures Whole(a + b + c)
    ensures HashBlocks(HashBlocks(HashBlocks(InitialHash(), a), b), c) == HashBlocks(InitialHash(), a + b + c)
  {
    hide InitialHash, HashBlocks, Whole;
    WholeSum(a, b);
    WholeSum(a + b, c);
    WholeIs(b);
    HashSplit(InitialHash(), a, b);
    HashSplit(InitialHash(), a + b, c);
  }

  lemma WholeIs(b: seq<Byte>)
    requires |b| == 64
    ensures Whole(b)
  {
  }

  lemma WholeSum(a: seq<Byte>, b: seq<Byte>)
    requires Whole(a) && (Whole(b) || |b| == 64)
    ensures Whole(a + b)
  {
    SumOf64(|a|, |b|);
  }

  lemma SumOf64(x: nat, y: nat)
    requires x % 64 == 0 && y % 64 == 0
    ensures (x + y) % 64 == 0
  {
  }

  lemma HoldsFacts(fed: seq<Byte>, h: seq<Word>, block: seq<Byte>, len: nat, total: nat)
    requires Holds(fed, h, block, len, total)
    ensures |h| == 8 && |block| == 128 && len < 64 && len <= |fed| && Whole(fed[..|fed| - len])
    ensures total == Low32(|fed| - len) && block[..len] == fed[|fed| - len..]
    ensures h == HashBlocks(InitialHash(), fed[..|fed| - len])
  {
    hide InitialHash, HashBlocks;
  }

  /** LongStep for the parts the code cuts the message into. */
  lemma LongUpdate(fed: seq<Byte>, h: seq<Word>, block: seq<Byte>, len: nat, total: nat, message: seq<Byte>, nb: nat,
                   rest: nat, after: seq<Byte>)
    requires Holds(fed, h, block, len, total) && len + |message| >= 64 && |after| == 128
    requires len < 64 && nb == (len + |message| - 64) / 64 && rest == (len + |message| - 64) % 64
    requires (var s := message[64 - len..]; 64 * nb + rest == |s| && after[..rest] == s[64 * nb..64 * nb + rest])
    requires len <= |block|
    ensures (var s := message[64 - len..];
             Holds(fed + message, HashBlocks(HashBlocks(h, block[..len] + message[..64 - len]), s[..64 * nb]), after,
                   rest,
                   Low32(total + 64 * (nb + 1))))
  {
    hide InitialHash, HashBlocks, Holds, Low32;
    HoldsFacts(fed, h, block, len, total);
    var done := fed[..|fed| - len];
    assert fed == done + block[..len];
    var head, s := message[..64 - len], message[64 - len..];
    Pieces(message, 64 - len, nb);
    LongStep(done, block[..len], h, total, head, s[..64 * nb], s[64 * nb..64 * nb + rest], after);
  }

  /** What completes the buffer, the whole blocks after it, and the rest. */
  lemma Pieces(message: seq<Byte>, r: nat, nb: nat)
    requires r <= |message| && nb == (|message| - r) / 64
    ensures (var s, rest := message[r..], (|message| - r) % 64;
             && 64 * nb + rest == |s|
             && message == message[..r] + s[..64 * nb] + s[64 * nb..64 * nb + rest])
  {
  }

  lemma HoldsJoined(all: seq<Byte>, tail: seq<Byte>, h: seq<Word>, block: seq<Byte>, total: nat)
    requires |h| == 8 && |block| == 128 && |tail| < 64 && Whole(all)
    requires total == Low32(|all|) && block[..|tail|] == tail && h == HashBlocks(InitialHash(), all)
    ensures Holds(all + tail, h, block, |tail|, total)
  {
    hide InitialHash, HashBlocks;
    assert (all + tail)[..|all|] == all && (all + tail)[|all|..] == tail;
  }

  class Context {
    var m_h: array<Word>
    var m_block: array<Byte>
    var m_len: nat
    var m_tot_len: nat
    /** Everything passed to update since init. */
    ghost var fed: seq<Byte>

    ghost predicate Valid()
      reads this, m_h, m_block
    {
      m_block.Length == 128 && Holds(fed, m_h[..], m_block[..], m_len, m_tot_len)
    }

    /** sha256.cpp:60-71. */
    constructor ()
      ensures Valid() && fed == [] && fresh(m_h) && fresh(m_block)
    {
      var h := InitialHash();
      m_h := new Word[8](k requires 0 <= k < 8 => h[k]);
      m_block := new Byte[128](_ => Byte(0));
      m_len := 0;
      m_tot_len := 0;
      fed := [];
      new;
      assert m_h[..] == InitialHash();
    }

    /** sha256.cpp:32-37: the schedule of one block. */
    method Expand(block: seq<Byte>) returns (w: array<Word>)
      requires |block| == 64
      ensures fresh(w) && w.Length == 64 && forall t | 0 <= t < 64 :: w[t] == Schedule(block, t)
    {
      hide Next, Pack, Schedule;
      w := new Word[64](_ => Word(0));
      var j := 0;
      while j < 16
        invariant j <= 16 && forall t | 0 <= t < j :: w[t] == Schedule(block, t)
      {
        ScheduleIs(block, j);
        w[j] := Pack(block[4 * j], block[4 * j + 1], block[4 * j + 2], block[4 * j + 3]);
        j := j + 1;
      }
      while j < 64
        invariant 16 <= j <= 64 && forall t | 0 <= t < j :: w[t] == Schedule(block, t)
      {
        ScheduleIs(block, j);
        w[j] := Next(w[j - 2], w[j - 7], w[j - 15], w[j - 16]);
        j := j + 1;
      }
    }

    /** sha256.cpp:23-58: the compression function, over each block in turn. */
    method Transform(message: seq<Byte>, block_nb: nat)
      requires m_h.Length == 8 && 64 * block_nb <= |message|
      modifies m_h
      ensures m_h[..] == HashBlocks(old(m_h[..]), message[..64 * block_nb])
    {
      hide Compress, HashBlocks;
      ghost var start := m_h[..];
      HashNone(start);
      assert message[..0] == [];
      var i := 0;
      while i < block_nb
        invariant i <= block_nb && m_h[..] == HashBlocks(start, message[..64 * i])
      {
        var block := message[64 * i..64 * i + 64];
        HashSplit(start, message[..64 * i], block);
        HashOne(m_h[..], block);
        assert message[..64 * (i + 1)] == message[..64 * i] + block;
        TransformOne(block);
        i := i + 1;
      }
    }

    /** sha256.cpp:42-52: the working variables move up by one. */
    static method Shift(wv: array<Word>, k: Word, w: Word)
      requires wv.Length == 8
      modifies wv
      ensures wv[..] == Round(old(wv[..]), k, w)
    {
      hide T1, T2, Add, Round;
      ghost var v := wv[..];
      var t1 := T1(wv[4], wv[5], wv[6], wv[7], k, w);
      var t2 := T2(wv[0], wv[1], wv[2]);
      wv[7] := wv[6];
      wv[6] := wv[5];
      wv[5] := wv[4];
      wv[4] := Add(wv[3], t1);
      wv[3] := wv[2];
      wv[2] := wv[1];
      wv[1] := wv[0];
      wv[0] := Add(t1, t2);
      RoundIs(v, k, w, wv[..]);
    }

    method TransformOne(block: seq<Byte>)
      requires m_h.Length == 8 && |block| == 64
      modifies m_h
      ensures m_h[..] == Compress(old(m_h[..]), block)
    {
      hide Schedule, Round, Add, Constant;
      ghost var h := m_h[..];
      var w := Expand(block);
      var wv := new Word[8](_ => Word(0));
      var j := 0;
      while j < 8
        invariant j <= 8 && wv[..j] == h[..j] && m_h[..] == h
        invariant forall t | 0 <= t < 64 :: w[t] == Schedule(block, t)
      {
        wv[j] := m_h[j];
        j := j + 1;
      }
      assert wv[..] == h;
      j := 0;
      while j < 64
        invariant j <= 64 && wv[..] == Rounds(h, block, j) && m_h[..] == h
        invariant forall t | 0 <= t < 64 :: w[t] == Schedule(block, t)
      {
        Shift(wv, Constant(j), w[j]);
        j := j + 1;
      }
      j := 0;
      while j < 8
        invariant j <= 8 && wv[..] == Rounds(h, block, 64)
        invariant forall k | 0 <= k < 8 :: m_h[k] == if k < j then Add(h[k], wv[k]) else h[k]
      {
        m_h[j] := Add(m_h[j], wv[j]);
        j := j + 1;
      }
      assert m_h[..] == Compress(h, block);
    }

    /** memcpy(&m_block[at], from, n), for sha256.cpp:79 and 90. */
    method CopyIn(at: nat, from: seq<Byte>)
      requires at + |from| <= m_block.Length
      modifies m_block
      ensures m_block[..at + |from|] == old(m_block[..at]) + from
      ensures m_block[at + |from|..] == old(m_block[at + |from|..])
    {
      ghost var was := m_block[..];
      var k := 0;
      while k < |from|
        invariant k <= |from|
        invariant m_block[..at + k] == was[..at] + from[..k] && m_block[at + k..] == was[at + k..]
      {
        m_block[at + k] := from[k];
        k := k + 1;
      }
    }

    /** sha256.cpp:73-93. The caller's length is an unsigned int and is shifted as an int, so below 2^31. */
    method Update(message: seq<Byte>)
      requires Valid() && |message| < 0x8000_0000
      modifies this, m_h, m_block
      ensures Valid() && fed == old(fed) + message && m_h == old(m_h) && m_block == old(m_block)
    {
      hide InitialHash, HashBlocks, Holds, Low32;
      HoldsFacts(fed, m_h[..], m_block[..], m_len, m_tot_len);
      ghost var h, block := m_h[..], m_block[..];
      var tmp_len := 64 - m_len;
      var rem_len := if |message| < tmp_len then |message| else tmp_len;
      CopyIn(m_len, message[..rem_len]);
      if m_len + |message| < 64 {
        ShortStep(fed, h, block, m_len, m_tot_len, message, m_block[..]);
        m_len := m_len + |message|;
      } else {
        var new_len := |message| - rem_len;
        var block_nb := new_len / 64;
        var shifted := message[rem_len..];
        assert m_block[..64] == block[..m_len] + message[..rem_len];
        assert m_block[..64][..64 * 1] == m_block[..64];
        Transform(m_block[..64], 1);
        Transform(shifted, block_nb);
        rem_len := new_len % 64;
        CopyIn(0, shifted[64 * block_nb..64 * block_nb + rem_len]);
        LongUpdate(fed, h, block, m_len, m_tot_len, message, block_nb, rem_len, m_block[..]);
        m_len := rem_len;
        m_tot_len := Low32(m_tot_len + 64 * (block_nb + 1));
      }
      fed := fed + message;
    }

    /** sha256.cpp:100-106: the last one or two blocks, in the buffer. */
    method Pad() returns (block_nb: nat)
      requires Valid()
      modifies m_block
      ensures block_nb <= 2 && 64 * block_nb <= m_block.Length
      ensures m_block[..64 * block_nb] == CodePadded(fed)[|fed| - m_len..]
    {
      hide InitialHash, HashBlocks, LengthField, Low32;
      ghost var m, done := fed, |fed| - m_len;
      block_nb := 1 + if 55 < m_len % 64 then 1 else 0;
      var len_b := Low32((m_tot_len + m_len) * 8);
      var pm_len := 64 * block_nb;
      BitLength(|m|, done, m_tot_len, m_len);
      CopyIn(m_len, Zeros(pm_len - m_len));
      m_block[m_len] := Byte(0x80);
      assert m_block[..pm_len - 4] == m[done..] + [Byte(0x80)] + Zeros(pm_len - m_len - 5);
      CopyIn(pm_len - 4, LengthField(len_b));
      FieldWraps(8 * |m|);
      LastBlocks(m, done);
    }

    /** sha256.cpp:95-111. */
    method Final() returns (digest: array<Byte>)
      requires Valid()
      modifies this, m_h, m_block
      ensures fresh(digest) && digest[..] == CodeHash(old(fed))
    {
      hide InitialHash, HashBlocks, CodePadded, Bytes;
      ghost var m, done := fed, |fed| - m_len;
      var block_nb := Pad();
      ghost var last := m_block[..64 * block_nb];
      Transform(m_block[..64 * block_nb], block_nb);
      assert last[..64 * block_nb] == last;
      LastTransform(m, done, last);
      digest := Emit();
    }

    /** sha256.cpp:108-110: the eight words as bytes. */
    method Emit() returns (digest: array<Byte>)
      requires m_h.Length == 8
      ensures fresh(digest) && digest[..] == Bytes(m_h[..])
    {
      hide Unpack;
      digest := new Byte[32](_ => Byte(0));
      BytesEnd(m_h[..0]);
      var i := 0;
      while i < 8
        invariant i <= 8 && digest[..4 * i] == Bytes(m_h[..i])
      {
        var b := Unpack(m_h[i]);
        digest[4 * i], digest[4 * i + 1], digest[4 * i + 2], digest[4 * i + 3] := b[0], b[1], b[2], b[3];
        assert digest[..4 * (i + 1)] == digest[..4 * i] + b;
        BytesSnoc(m_h[..i], m_h[i]);
        assert m_h[..i + 1] == m_h[..i] + [m_h[i]];
        i := i + 1;
      }
      assert m_h[..8] == m_h[..] && digest[..32] == digest[..];
    }
  }

  lemma FieldWraps(n: nat)
    ensures LengthField(Low32(n)) == LengthField(n)
  {
    hide ByteOf;
    ByteAt(n, 0x100_0000);
    ByteAt(n, 0x1_0000);
    ByteAt(n, 0x100);
    ByteAt(n, 1);
  }

  lemma ByteAt(n: nat, unit: nat)
    requires unit == 1 || unit == 0x100 || unit == 0x1_0000 || unit == 0x100_0000
    ensures ByteOf(Low32(n) / unit) == ByteOf(n / unit)
  {
    hide BitIf;
    ByteWraps(n, unit);
  }

  lemma ByteWraps(n: nat, unit: nat)
    requires unit == 1 || unit == 0x100 || unit == 0x1_0000 || unit == 0x100_0000
    ensures (Low32(n) / unit) % 256 == (n / unit) % 256
  {
    var q, r := n / 0x1_0000_0000, Low32(n);
    var c := if unit == 1 then 0x100_0000 else if unit == 0x100 then 0x1_0000 else if unit == 0x1_0000 then 0x100
        else 1;
    assert n == (256 * (c * q) + r / unit) * unit + r % unit by {
      DivModBound(r, unit);
      if unit == 1 {
      } else if unit == 0x100 {
      } else if unit == 0x1_0000 {
      } else {
      }
    }
    MulDivMod(n, unit, 256 * (c * q) + r / unit, r % unit);
    Wrap(c * q, r / unit);
  }

  lemma Wrap(k: int, x: int)
    ensures (256 * k + x) % 256 == x % 256
  {
  }

  lemma LastTransform(m: seq<Byte>, done: nat, last: seq<Byte>)
    requires done <= |m| && done % 64 == 0 && last == CodePadded(m)[done..]
    ensures HashBlocks(HashBlocks(InitialHash(), m[..done]), last) == HashBlocks(InitialHash(), CodePadded(m))
  {
    hide InitialHash, HashBlocks, LengthField;
    assert CodePadded(m)[..done] == m[..done];
    assert CodePadded(m) == m[..done] + last;
    HashSplit(InitialHash(), m[..done], last);
  }

  lemma ScheduleIs(block: seq<Byte>, t: nat)
    requires |block| == 64 && t < 64
    ensures t < 16 ==> Schedule(block, t) == Pack(block[4 * t], block[4 * t + 1], block[4 * t + 2], block[4 * t + 3])
    ensures t >= 16 ==> Schedule(block, t)
                        == Next(Schedule(block, t - 2), Schedule(block, t - 7), Schedule(block, t - 15),
                                Schedule(block, t - 16))
  {
    hide Next, Pack;
  }

  lemma HashNone(h: seq<Word>)
    requires |h| == 8
    ensures HashBlocks(h, []) == h
  {
  }

  lemma BytesEnd(h: seq<Word>)
    requires h == []
    ensures Bytes(h) == []
  {
  }

  lemma {:induction false} BytesSnoc(h: seq<Word>, x: Word)
    ensures Bytes(h + [x]) == Bytes(h) + Unpack(x)
    decreases |h|
  {
    hide Unpack;
    if h != [] {
      assert (h + [x])[1..] == h[1..] + [x];
      BytesSnoc(h[1..], x);
    }
  }

  lemma RoundIs(v: seq<Word>, k: Word, w: Word, r: seq<Word>)
    requires |v| == 8 && |r| == 8 && r[7] == v[6] && r[6] == v[5] && r[5] == v[4] && r[3] == v[2] && r[2] == v[1]
    requires r[1] == v[0]
    requires (var t1 := T1(v[4], v[5], v[6], v[7], k, w);
              r[4] == Add(v[3], t1) && r[0] == Add(t1, T2(v[0], v[1], v[2])))
    ensures r == Round(v, k, w)
  {
    hide T1, T2, Add;
  }

  lemma BitLength(n: nat, done: nat, total: nat, len: nat)
    requires total == Low32(done) && n == done + len
    ensures Low32((total + len) * 8) == Low32(8 * n)
  {
    Low32Sum(done, len);
    Low32Eight(total + len);
    Low32Eight(n);
  }

  // ---------------------------------------------------------------- the whole hash

  function Joined(chunks: seq<seq<Byte>>): seq<Byte> {
    if chunks == [] then [] else Joined(chunks[..|chunks| - 1]) + chunks[|chunks| - 1]
  }

  /**
   * init, update for every chunk, final (sha256.cpp:113-120): however the message is cut into chunks, the digest is the
   * standard's for the messages below 2^29 bytes.
   */
  method HashChunks(chunks: seq<seq<Byte>>) returns (digest: seq<Byte>)
    requires forall k | 0 <= k < |chunks| :: |chunks[k]| < 0x8000_0000
    ensures digest == CodeHash(Joined(chunks))
    ensures |Joined(chunks)| < 0x2000_0000 ==> digest == Hash(Joined(chunks))
  {
    hide InitialHash, HashBlocks, CodePadded, Padded;
    var ctx := new Context();
    var k := 0;
    while k < |chunks|
      invariant k <= |chunks| && ctx.Valid() && ctx.fed == Joined(chunks[..k])
      invariant fresh(ctx) && fresh(ctx.m_h) && fresh(ctx.m_block)
    {
      ctx.Update(chunks[k]);
      assert chunks[..k + 1][..k] == chunks[..k];
      k := k + 1;
    }
    assert chunks[..k] == chunks;
    var d := ctx.Final();
    digest := d[..];
    if |Joined(chunks)| < 0x2000_0000 {
      PaddingExact(Joined(chunks));
    }
  }
}
