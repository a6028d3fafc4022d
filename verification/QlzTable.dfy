/** The hash table of the level-2 compressor and the match search (lzip/quicklz.c). */
module QlzTable {
  import opened Bits
  import opened QlzTokens
  import opened QlzGreedy

  /** fast_read(p, 3), quicklz.c:95-104. */
  function Read3(x: seq<int>, p: nat): int
    requires p + 2 < |x|
  {
    x[p] + 0x100 * x[p + 1] + 0x1_0000 * x[p + 2]
  }

  lemma Read3Same(x: seq<int>, a: nat, b: nat)
    requires IsBytes(x) && a + 2 < |x| && b + 2 < |x|
    ensures Read3(x, a) == Read3(x, b) <==> x[a..a + 3] == x[b..b + 3]
  {
    var u, v := x[a..a + 3], x[b..b + 3];
    assert u[0] == x[a] && u[1] == x[a + 1] && u[2] == x[a + 2];
    assert v[0] == x[b] && v[1] == x[b + 1] && v[2] == x[b + 2];
    if Read3(x, a) == Read3(x, b) {
      ThreeDigits(x[a], x[a + 1], x[a + 2], x[b], x[b + 1], x[b + 2]);
    }
  }

  lemma ThreeDigits(a: nat, b: nat, c: nat, a': nat, b': nat, c': nat)
    requires a < 256 && b < 256 && c < 256 && a' < 256 && b' < 256 && c' < 256
    requires a + 0x100 * b + 0x1_0000 * c == a' + 0x100 * b' + 0x1_0000 * c'
    ensures a == a' && b == b' && c == c'
  {
    var v := a + 0x100 * b + 0x1_0000 * c;
    MulDivMod(v, 0x100, b + 0x100 * c, a);
    MulDivMod(v, 0x100, b' + 0x100 * c', a');
    MulDivMod(b + 0x100 * c, 0x100, c, b);
    MulDivMod(b' + 0x100 * c', 0x100, c', b');
  }

  lemma RepeatsMore(x: seq<int>, from: int, p: int, len: nat)
    requires Repeats(x, from, p, len) && p + len < |x| && x[from + len] == x[p + len]
    ensures Repeats(x, from, p, len + 1)
  {
    assert x[from..from + len + 1] == x[from..from + len] + [x[from + len]];
    assert x[p..p + len + 1] == x[p..p + len] + [x[p + len]];
  }

  /** No longer repetition of the bytes at src starts at o, within the first remaining bytes. */
  ghost predicate Longest(x: seq<int>, o: int, src: int, remaining: nat, matchlen: nat) {
    forall n: nat | 3 <= n <= remaining && Repeats(x, o, src, n) :: n <= matchlen
  }

  lemma RepeatsAt(x: seq<int>, o: int, src: int, n: nat, i: nat)
    requires Repeats(x, o, src, n) && i < n
    ensures x[o + i] == x[src + i] && 0 <= o && o + 3 <= src && src + n <= |x|
  {
    assert x[o..o + n][i] == x[src..src + n][i];
  }

  lemma Stopped(x: seq<int>, o: int, src: nat, remaining: nat, m: nat)
    requires 0 <= o < src && m <= remaining && src + remaining < |x| && (m < remaining ==> x[o + m] != x[src + m])
    ensures Longest(x, o, src, remaining, m)
  {
    forall n: nat | 3 <= n <= remaining && Repeats(x, o, src, n)
      ensures n <= m
    {
      if n > m {
        RepeatsAt(x, o, src, n, m);
        assert false;
      }
    }
  }

  lemma NotLonger(x: seq<int>, o: int, src: nat, remaining: nat, matchlen: nat)
    requires IsBytes(x) && 0 <= o < src && matchlen <= remaining && src + remaining < |x| && src + 2 < |x|
    requires !(x[src + matchlen] == x[o + matchlen] && Read3(x, o) == Read3(x, src) && o < src - 2)
    ensures Longest(x, o, src, remaining, matchlen)
  {
    hide Read3;
    forall n: nat | 3 <= n <= remaining && Repeats(x, o, src, n)
      ensures n <= matchlen
    {
      if n > matchlen {
        RepeatsAt(x, o, src, n, matchlen);
        RepeatsThree(x, o, src, n);
        assert false;
      }
    }
  }

  lemma NotThree(x: seq<int>, o: int, src: nat, remaining: nat)
    requires IsBytes(x) && 0 <= o < src && src + remaining < |x| && src + 2 < |x|
    requires !(o < src - 2 && Read3(x, o) == Read3(x, src))
    ensures Longest(x, o, src, remaining, 0)
  {
    hide Read3;
    forall n: nat
      ensures n >= 3 ==> !Repeats(x, o, src, n)
    {
      if n >= 3 && Repeats(x, o, src, n) {
        RepeatsThree(x, o, src, n);
        assert false;
      }
    }
  }

  lemma RepeatsThree(x: seq<int>, o: int, src: nat, n: nat)
    requires IsBytes(x) && 0 <= o && src + 2 < |x| && n >= 3 && Repeats(x, o, src, n)
    ensures o + 2 < src && Read3(x, o) == Read3(x, src)
  {
    RepeatsAt(x, o, src, n, 0);
    RepeatsAt(x, o, src, n, 1);
    RepeatsAt(x, o, src, n, 2);
  }

  lemma LongestMore(x: seq<int>, o: int, src: int, remaining: nat, m: nat, more: nat)
    requires Longest(x, o, src, remaining, m) && m <= more
    ensures Longest(x, o, src, remaining, more)
  {
  }

  ghost predicate Before(starts: seq<nat>, p: int) {
    forall i | 0 <= i < |starts| :: starts[i] < p
  }

  /** quicklz.h:113-121: offset[h, s] is slot s of bucket h, counter[h] an unsigned char. */
  class Table {
    const offset: array2<int>
    const counter: array<int>

    ghost predicate Shape()
      reads this
    {
      offset.Length0 == HASH_VALUES && offset.Length1 == POINTERS && counter.Length == HASH_VALUES
    }

    /** Bucket h as the insertions at starts have left it; slots not yet written hold anything. */
    ghost predicate Holds(x: seq<int>, starts: seq<nat>, h: nat)
      requires Shape() && IsBytes(x) && InText(x, starts) && h < HASH_VALUES
      reads this, offset, counter
    {
      var b := Bucket(x, starts, h);
      counter[h] == |b| % 256 && forall s | 0 <= s < POINTERS && s < |b| :: offset[h, s] == b[Latest(|b|, s)]
    }

    ghost predicate Valid(x: seq<int>, starts: seq<nat>)
      reads this, offset, counter
    {
      Shape() && IsBytes(x) && InText(x, starts) && forall h | 0 <= h < HASH_VALUES :: Holds(x, starts, h)
    }

    constructor ()
      ensures Shape() && fresh(offset) && fresh(counter)
    {
      offset := new int[HASH_VALUES, POINTERS];
      counter := new int[HASH_VALUES];
    }

    /** reset_table_compress, quicklz.c:60-71: only the counters are cleared. */
    method Reset(ghost x: seq<int>)
      requires Shape() && IsBytes(x)
      modifies counter
      ensures Valid(x, [])
    {
      var i := 0;
      while i < HASH_VALUES
        invariant 0 <= i <= HASH_VALUES
        invariant forall h | 0 <= h < i :: counter[h] == 0
      {
        counter[i] := 0;
        i := i + 1;
      }
    }

    /** quicklz.c:336-338 and 446-450. */
    method Insert(x: seq<int>, ghost starts: seq<nat>, h: nat, p: nat)
      requires Valid(x, starts) && p + 2 < |x| && h == HashAt(x, p)
      modifies offset, counter
      ensures Valid(x, starts + [p])
    {
      hide HashAt, Bucket, Latest;
      ghost var b := Bucket(x, starts, h);
      HashRange(x, p);
      assert Holds(x, starts, h);
      BucketAppend(x, starts, p);
      SlotOf(|b|);
      var c := counter[h];
      offset[h, And(c, POINTERS - 1)] := p;
      c := (c + 1) % 256;
      counter[h] := c;
      forall g | 0 <= g < HASH_VALUES
        ensures Holds(x, starts + [p], g)
      {
        assert old(Holds(x, starts, g));
        if g == h {
          forall s | 0 <= s < POINTERS && s < |b| + 1
            ensures offset[h, s] == (b + [p])[Latest(|b| + 1, s)]
          {
            LatestNext(|b|, s);
          }
        }
      }
    }

    lemma ShapeOf(x: seq<int>, starts: seq<nat>)
      requires Valid(x, starts)
      ensures Shape() && IsBytes(x) && InText(x, starts)
    {
    }

    /** A slot that the counter vouches for has been written; what it holds lies before src. */
    lemma SlotValue(x: seq<int>, starts: seq<nat>, h: nat, k: nat, src: nat)
      requires Valid(x, starts) && Before(starts, src) && h < HASH_VALUES && k < POINTERS && counter[h] > k
      ensures (var b := Bucket(x, starts, h);
               k < |b| && offset[h, k] == b[Latest(|b|, k)] && 0 <= offset[h, k] < src)
    {
      hide Bucket, Latest;
      assert Holds(x, starts, h);
      BucketMembers(x, starts, h);
    }

    lemma OfferIs(x: seq<int>, starts: seq<nat>, src: nat, k: nat, n: nat)
      requires Valid(x, starts) && Before(starts, src) && src + 2 < |x|
      ensures Shape() && HashAt(x, src) < HASH_VALUES
      ensures Offers(x, starts, src, k, n) <==>
              k < POINTERS && k < counter[HashAt(x, src)] && 3 <= n && Repeats(x, offset[HashAt(x, src), k], src, n)
    {
      hide HashAt, Bucket, Latest, Repeats;
      HashRange(x, src);
      var h := HashAt(x, src);
      assert Holds(x, starts, h);
    }

    /** What the search has found in the first c slots is the token to be chosen. */
    lemma FoundChosen(x: seq<int>, starts: seq<nat>, src: nat, h: nat, matchlen: nat, bestK: nat)
      requires Valid(x, starts) && Before(starts, src) && src + 11 <= |x| && h == HashAt(x, src) && h < HASH_VALUES
      requires matchlen <= Reach(x, src) && bestK < POINTERS
      requires matchlen > 2 ==> bestK < counter[h] && Repeats(x, offset[h, bestK], src, matchlen)
      requires forall k | 0 <= k < POINTERS && k < counter[h] ::
                 Longest(x, offset[h, k], src, Reach(x, src), matchlen)
      requires forall k | 0 <= k < bestK && k < counter[h] && matchlen > 2 ::
                 !Repeats(x, offset[h, k], src, matchlen)
      ensures Chosen(x, starts, src, if matchlen > 2 then Match(h, bestK, matchlen) else Literal(x[src]))
    {
      hide HashAt, Bucket, Latest, Repeats, Offers, Valid;
      ShapeOf(x, starts);
      forall k, n | 0 <= k && 0 <= n <= Reach(x, src) && Offers(x, starts, src, k, n)
        ensures n <= matchlen && 3 <= n
      {
        OfferIs(x, starts, src, k, n);
      }
      if matchlen > 2 {
        OfferIs(x, starts, src, bestK, matchlen);
        forall k | 0 <= k < bestK
          ensures !Offers(x, starts, src, k, matchlen)
        {
          OfferIs(x, starts, src, k, matchlen);
        }
      }
    }

    /**
     * quicklz.c:288-335: the longest match that a slot of the bucket offers, in the first slot that has it; a length
     * below 3 means that there is none.
     */
    method FindMatch(x: seq<int>, ghost starts: seq<nat>, src: nat, remaining: nat)
      returns (h: nat, matchlen: nat, bestK: nat)
      requires Valid(x, starts) && Before(starts, src) && src + 11 <= |x| && remaining == Reach(x, src)
      ensures IsBytes(x) && InText(x, starts) && h == HashAt(x, src) && h < HASH_VALUES
      ensures Chosen(x, starts, src, if matchlen > 2 then Match(h, bestK, matchlen) else Literal(x[src]))
    {
      hide HashAt, HashOf, Bucket, Latest, Read3, Repeats, Valid, Longest, Chosen;
      ShapeOf(x, starts);
      h := HashAt(x, src);
      HashRange(x, src);
      var fetch, c := Read3(x, src), counter[h];
      bestK := 0;
      var o := offset[h, 0];
      if c > 0 {
        SlotValue(x, starts, h, 0, src);
      }
      if o < src - 2 && c > 0 && Read3(x, o) == fetch {
        ThreeRepeat(x, o, src);
        matchlen := 3;
        if x[o + matchlen] == x[src + matchlen] {
          RepeatsMore(x, o, src, 3);
          matchlen := Extend(x, o, src, 4, remaining);
        }
        Stopped(x, o, src, remaining, matchlen);
      } else {
        matchlen := 0;
        if c > 0 {
          NotThree(x, o, src, remaining);
        }
      }
      var k := 1;
      while k < POINTERS && c > k
        invariant 1 <= k <= POINTERS && Found(x, h, src, remaining, k, matchlen, bestK)
      {
        matchlen, bestK := TrySlot(x, starts, src, remaining, h, k, matchlen, bestK);
        k := k + 1;
      }
      FoundIs(x, h, src, remaining, k, matchlen, bestK);
      FoundChosen(x, starts, src, h, matchlen, bestK);
    }

    /** The best of the slots before slot k. */
    ghost predicate Found(x: seq<int>, h: nat, src: nat, remaining: nat, k: nat, matchlen: nat, bestK: nat)
      requires Shape() && h < HASH_VALUES && k <= POINTERS
      reads this, offset, counter
    {
      && bestK < POINTERS && matchlen <= remaining
      && (matchlen > 2 ==> bestK < counter[h] && Repeats(x, offset[h, bestK], src, matchlen))
      && (forall j | 0 <= j < k && j < counter[h] :: Longest(x, offset[h, j], src, remaining, matchlen))
      && forall j | 0 <= j < bestK && j < counter[h] && matchlen > 2 :: !Repeats(x, offset[h, j], src, matchlen)
    }

    lemma FoundIs(x: seq<int>, h: nat, src: nat, remaining: nat, k: nat, matchlen: nat, bestK: nat)
      requires Shape() && h < HASH_VALUES && k <= POINTERS && (k < POINTERS ==> counter[h] <= k)
      requires Found(x, h, src, remaining, k, matchlen, bestK)
      ensures Found(x, h, src, remaining, POINTERS, matchlen, bestK)
    {
      hide Longest, Repeats;
    }

    /** The body of the loop over the slots, quicklz.c:313-333. */
    method TrySlot(x: seq<int>, ghost starts: seq<nat>, src: nat, remaining: nat, h: nat, k: nat, matchlen0: nat,
                   bestK0: nat)
      returns (matchlen: nat, bestK: nat)
      requires Valid(x, starts) && Before(starts, src) && src + 11 <= |x| && remaining == Reach(x, src)
      requires h == HashAt(x, src) && h < HASH_VALUES && k < POINTERS && counter[h] > k
      requires Found(x, h, src, remaining, k, matchlen0, bestK0)
      ensures Found(x, h, src, remaining, k + 1, matchlen, bestK)
    {
      hide HashAt, HashOf, Bucket, Latest, Read3, Repeats, Valid, Longest, Found;
      ShapeOf(x, starts);
      matchlen, bestK := matchlen0, bestK0;
      var o := offset[h, k];
      SlotValue(x, starts, h, k, src);
      FoundWithin(x, h, src, remaining, k, matchlen0, bestK0);
      if x[src + matchlen] == x[o + matchlen] && Read3(x, o) == Read3(x, src) && o < src - 2 {
        ThreeRepeat(x, o, src);
        var m := Extend(x, o, src, 3, remaining);
        Stopped(x, o, src, remaining, m);
        if m > matchlen {
          matchlen := m;
          bestK := k;
          NewBest(x, h, src, remaining, k, matchlen0, bestK0, m);
        } else {
          LongestMore(x, o, src, remaining, m, matchlen);
          OldBest(x, h, src, remaining, k, matchlen0, bestK0);
        }
      } else {
        NotLonger(x, o, src, remaining, matchlen);
        OldBest(x, h, src, remaining, k, matchlen0, bestK0);
      }
    }

    lemma FoundWithin(x: seq<int>, h: nat, src: nat, remaining: nat, k: nat, matchlen: nat, bestK: nat)
      requires Shape() && h < HASH_VALUES && k < POINTERS && Found(x, h, src, remaining, k, matchlen, bestK)
      ensures matchlen <= remaining
    {
    }

    lemma OldBest(x: seq<int>, h: nat, src: nat, remaining: nat, k: nat, matchlen: nat, bestK: nat)
      requires Shape() && h < HASH_VALUES && k < POINTERS && Found(x, h, src, remaining, k, matchlen, bestK)
      requires Longest(x, offset[h, k], src, remaining, matchlen)
      ensures Found(x, h, src, remaining, k + 1, matchlen, bestK)
    {
      hide Longest, Repeats;
    }

    lemma NewBest(x: seq<int>, h: nat, src: nat, remaining: nat, k: nat, shorter: nat, bestK: nat, m: nat)
      requires Shape() && h < HASH_VALUES && k < POINTERS && Found(x, h, src, remaining, k, shorter, bestK)
      requires shorter < m <= remaining && 3 <= m && k < counter[h] && Repeats(x, offset[h, k], src, m)
      requires Longest(x, offset[h, k], src, remaining, m)
      ensures Found(x, h, src, remaining, k + 1, m, k)
    {
      hide Repeats;
    }
  }

  /** quicklz.c:305-306 and 320-322. */
  method Extend(x: seq<int>, o: int, src: nat, m0: nat, remaining: nat) returns (m: nat)
    requires Repeats(x, o, src, m0) && m0 <= remaining && src + remaining < |x|
    ensures m0 <= m <= remaining && Repeats(x, o, src, m)
    ensures m < remaining ==> x[o + m] != x[src + m]
  {
    m := m0;
    while x[o + m] == x[src + m] && m < remaining
      invariant m0 <= m <= remaining && Repeats(x, o, src, m)
      decreases remaining - m
    {
      RepeatsMore(x, o, src, m);
      m := m + 1;
    }
  }

  lemma ThreeRepeat(x: seq<int>, o: int, src: nat)
    requires IsBytes(x) && 0 <= o < src - 2 && src + 2 < |x| && Read3(x, o) == Read3(x, src)
    ensures Repeats(x, o, src, 3)
  {
    hide Read3;
    Read3Same(x, o, src);
  }

  lemma HashRange(x: seq<int>, p: nat)
    requires p + 2 < |x| && IsBytes(x)
    ensures HashAt(x, p) < HASH_VALUES
  {
  }

  lemma BucketAppend(x: seq<int>, starts: seq<nat>, p: nat)
    requires IsBytes(x) && InText(x, starts) && p + 2 < |x|
    ensures InText(x, starts + [p])
    ensures forall h :: h >= 0 ==> Bucket(x, starts + [p], h) == Bucket(x, starts, h) + if HashAt(x, p) == h then [p]
              else []
  {
    hide HashAt;
    assert (starts + [p])[..|starts|] == starts;
  }

  /** The low two bits of the wrapping counter are those of the true count. */
  lemma SlotOf(count: nat)
    ensures And(count % 256, POINTERS - 1) == count % POINTERS && (count % 256 + 1) % 256 == (count + 1) % 256
  {
    hide And;
    assert Pow2(2) == 4;
    AndLowMask(count % 256, 2, 4);
    Wraps(count);
  }

  lemma Wraps(count: nat)
    ensures (count % 256) % 4 == count % 4 && (count % 256 + 1) % 256 == (count + 1) % 256
  {
    var q, r := count / 256, count % 256;
    MulDivMod(count, 4, 64 * q + r / 4, r % 4);
    if r == 255 {
      MulDivMod(count + 1, 256, q + 1, 0);
    } else {
      MulDivMod(count + 1, 256, q, r + 1);
    }
  }

  lemma LatestNext(count: nat, s: nat)
    requires s < POINTERS && s < count + 1
    ensures s == count % POINTERS ==> Latest(count + 1, s) == count
    ensures s != count % POINTERS ==> s < count && Latest(count + 1, s) == Latest(count, s)
  {
    hide Latest;
    if s == count % POINTERS {
      LatestUnique(count + 1, s, count);
    } else {
      var i := Latest(count + 1, s);
      LatestUnique(count, s, i);
    }
  }
}
