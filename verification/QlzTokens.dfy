/** What the level-2 QuickLZ compressor emits, as tokens, and why tokens determine the source (lzip/quicklz.c). */
module QlzTokens {
  import opened Bits
  import opened Options

  const POINTERS := 4
  const HASH_VALUES := 2048

  /** A literal byte, or a match: a bucket of the hash table, a slot in it, and a length. */
  datatype Token = Literal(byte: int) | Match(hash: nat, slot: nat, len: nat)

  ghost predicate IsBytes(s: seq<int>) {
    forall i | 0 <= i < |s| :: 0 <= s[i] < 256
  }

  /** quicklz.c:86-93 on the three bytes that fast_read fetches. */
  function HashOf(a: nat, b: nat, c: nat): (h: nat)
    ensures h < HASH_VALUES
  {
    var i := a + 0x100 * b + 0x1_0000 * c;
    Xor(Xor(i / 512, i / 8192), i) % HASH_VALUES
  }

  function HashAt(x: seq<int>, p: nat): nat
    requires p + 2 < |x| && IsBytes(x)
  {
    HashOf(x[p], x[p + 1], x[p + 2])
  }

  function Length(t: Token): nat {
    match t case Literal(_) => 1 case Match(_, _, len) => len
  }

  /** Bytes that a token sequence stands for. */
  function Total(ts: seq<Token>): nat {
    if ts == [] then 0 else Total(ts[..|ts| - 1]) + Length(ts[|ts| - 1])
  }

  // ---------------------------------------------------------------- the hash table

  /** The positions among starts that lie in bucket h, oldest first. */
  function Bucket(x: seq<int>, starts: seq<nat>, h: nat): (r: seq<nat>)
    requires IsBytes(x) && forall i | 0 <= i < |starts| :: starts[i] + 2 < |x|
    ensures |r| <= |starts|
  {
    if starts == [] then []
    else
      var p := starts[|starts| - 1];
      Bucket(x, starts[..|starts| - 1], h) + if HashAt(x, p) == h then [p] else []
  }

  /** Slot s was last written by the newest insertion whose number is s modulo 4. */
  function Latest(count: nat, s: nat): (i: nat)
    requires s < POINTERS && s < count
    ensures i < count && i % POINTERS == s && count <= i + POINTERS
  {
    var d := (count - 1 - s) % POINTERS;
    LatestFacts(count, s, d);
    count - 1 - d
  }

  lemma LatestFacts(count: nat, s: nat, d: nat)
    requires s < POINTERS && s < count && d == (count - 1 - s) % POINTERS
    ensures d <= count - 1 && (count - 1 - d) % POINTERS == s
  {
    var q := (count - 1 - s) / POINTERS;
    assert count - 1 - s == 4 * q + d;
  }

  lemma LatestUnique(count: nat, s: nat, i: nat)
    requires s < POINTERS && s < count && i < count && i % POINTERS == s && count <= i + POINTERS
    ensures i == Latest(count, s)
  {
  }

  // ---------------------------------------------------------------- valid tokens

  /**
   * The token at position p of x says what is there; a match names a slot holding a position at least 3 back, from
   * which the next len bytes are the same, and stays clear of the last four bytes.
   */
  ghost predicate Fits(x: seq<int>, starts: seq<nat>, p: nat, t: Token)
    requires IsBytes(x) && forall i | 0 <= i < |starts| :: starts[i] + 2 < |x|
  {
    match t
    case Literal(b) => p < |x| && b == x[p]
    case Match(h, s, len) =>
      && 3 <= len <= 255 && p + len + 4 <= |x| && h == HashAt(x, p) && s < POINTERS && s < |Bucket(x, starts, h)|
      && Repeats(x, Bucket(x, starts, h)[Latest(|Bucket(x, starts, h)|, s)], p, len)
  }

  ghost predicate Repeats(x: seq<int>, from: int, p: int, len: nat) {
    0 <= from && from + 3 <= p && p + len <= |x| && x[from..from + len] == x[p..p + len]
  }

  /** Where the tokens start that enter the hash table: all but those at the very end. */
  function Starts(x: seq<int>, ts: seq<Token>): (r: seq<nat>)
    ensures forall i | 0 <= i < |r| :: r[i] + 2 < |x| && r[i] < Total(ts)
    decreases |ts|
  {
    if ts == [] then []
    else
      var front := ts[..|ts| - 1];
      Starts(x, front) + if Total(front) + 3 < |x| && Length(ts[|ts| - 1]) > 0 then [Total(front)] else []
  }

  /** ts describes the first Total(ts) bytes of x. */
  ghost predicate Describes(x: seq<int>, ts: seq<Token>)
    requires IsBytes(x)
    decreases |ts|
  {
    ts != [] ==>
      var front := ts[..|ts| - 1];
      Describes(x, front) && Fits(x, Starts(x, front), Total(front), ts[|ts| - 1])
  }

  lemma DescribesAppend(x: seq<int>, ts: seq<Token>, t: Token)
    requires IsBytes(x) && Describes(x, ts) && Fits(x, Starts(x, ts), Total(ts), t)
    ensures Describes(x, ts + [t]) && Total(ts + [t]) == Total(ts) + Length(t)
    ensures Total(ts) + 3 < |x| && Length(t) > 0 ==> Starts(x, ts + [t]) == Starts(x, ts) + [Total(ts)]
    ensures Total(ts) + 3 >= |x| ==> Starts(x, ts + [t]) == Starts(x, ts)
  {
    assert (ts + [t])[..|ts|] == ts;
  }

  lemma {:induction false} DescribesTotal(x: seq<int>, ts: seq<Token>)
    requires IsBytes(x) && Describes(x, ts)
    ensures Total(ts) <= |x|
    decreases |ts|
  {
    if ts != [] {
      DescribesTotal(x, ts[..|ts| - 1]);
    }
  }

  // ---------------------------------------------------------------- rebuilding the source

  /** The output so far with len bytes copied from an earlier position, byte by byte. */
  function CopyFrom(out: seq<int>, from: nat, len: nat): (r: seq<int>)
    requires from < |out|
    ensures |r| == |out| + len
    decreases len
  {
    if len == 0 then out else CopyFrom(out + [out[from]], from + 1, len - 1)
  }

  /** The decoder's table: token starts whose three bytes it has already produced. */
  function KnownStarts(out: seq<int>, ts: seq<Token>): (r: seq<nat>)
    ensures forall i | 0 <= i < |r| :: r[i] + 2 < |out|
    decreases |ts|
  {
    if ts == [] then []
    else
      var front := ts[..|ts| - 1];
      KnownStarts(out, front) + if Total(front) + 2 < |out| then [Total(front)] else []
  }

  /** A decoder that sees only tokens and its own output, as quicklz.c:485-597 does. */
  function Rebuild(ts: seq<Token>): (r: Option<seq<int>>)
    ensures r.Some? ==> IsBytes(r.value)
    decreases |ts|
  {
    if ts == [] then Some([])
    else
      var front, t := ts[..|ts| - 1], ts[|ts| - 1];
      var r := Rebuild(front);
      if r.None? then None
      else
        var out := r.value;
        match t
        case Literal(b) => if 0 <= b < 256 then Some(out + [b]) else None
        case Match(h, s, len) =>
          var bucket := Bucket(out, KnownStarts(out, front), h);
          if s < POINTERS && s < |bucket| && bucket[Latest(|bucket|, s)] < |out| then
            CopyBytes(out, bucket[Latest(|bucket|, s)], len);
            Some(CopyFrom(out, bucket[Latest(|bucket|, s)], len))
          else None
  }

  lemma {:induction false} CopyBytes(out: seq<int>, from: nat, len: nat)
    requires from < |out| && IsBytes(out)
    ensures IsBytes(CopyFrom(out, from, len))
    decreases len
  {
    if len > 0 {
      CopyBytes(out + [out[from]], from + 1, len - 1);
    }
  }

  lemma {:induction false} CopyRepeats(x: seq<int>, from: nat, p: nat, len: nat)
    requires from < p && p + len <= |x| && x[from..from + len] == x[p..p + len]
    ensures CopyFrom(x[..p], from, len) == x[..p + len]
    decreases len
  {
    if len > 0 {
      var a, b := x[from..from + len], x[p..p + len];
      assert a[0] == x[from] && b[0] == x[p];
      assert x[..p] + [x[from]] == x[..p + 1];
      assert a[1..] == x[from + 1..from + 1 + (len - 1)] && b[1..] == x[p + 1..p + 1 + (len - 1)];
      CopyRepeats(x, from + 1, p + 1, len - 1);
    }
  }

  ghost predicate InText(x: seq<int>, starts: seq<nat>) {
    forall i | 0 <= i < |starts| :: starts[i] + 2 < |x|
  }

  lemma {:induction false} BucketSplit(x: seq<int>, a: seq<nat>, b: seq<nat>, h: nat)
    requires IsBytes(x) && InText(x, a) && InText(x, b)
    ensures Bucket(x, a + b, h) == Bucket(x, a, h) + Bucket(x, b, h)
    decreases |b|
  {
    if b == [] {
      assert a + b == a;
    } else {
      var front := b[..|b| - 1];
      assert (a + b)[..|a + b| - 1] == a + front;
      BucketSplit(x, a, front, h);
    }
  }

  lemma {:induction false} BucketMembers(x: seq<int>, a: seq<nat>, h: nat)
    requires IsBytes(x) && InText(x, a)
    ensures forall i | 0 <= i < |Bucket(x, a, h)| :: Bucket(x, a, h)[i] in a
    decreases |a|
  {
    if a != [] {
      BucketMembers(x, a[..|a| - 1], h);
    }
  }

  lemma {:induction false} BucketPrefixText(x: seq<int>, a: seq<nat>, h: nat, L: nat)
    requires IsBytes(x) && L <= |x| && InText(x[..L], a)
    ensures IsBytes(x[..L]) && InText(x, a) && Bucket(x[..L], a, h) == Bucket(x, a, h)
    decreases |a|
  {
    if a != [] {
      BucketPrefixText(x, a[..|a| - 1], h, L);
    }
  }

  /** Positions below L - 2 have been produced, the others have not. */
  ghost predicate Beyond(rest: seq<nat>, L: nat) {
    forall i | 0 <= i < |rest| :: rest[i] + 2 >= L
  }

  /** What the decoder knows is the older part of the table. */
  lemma {:induction false} KnownSplit(x: seq<int>, ts: seq<Token>, L: nat) returns (rest: seq<nat>)
    requires IsBytes(x) && Describes(x, ts) && L < |x|
    ensures Starts(x, ts) == KnownStarts(x[..L], ts) + rest && Beyond(rest, L) && (Total(ts) + 2 < L ==> rest == [])
    decreases |ts|
  {
    hide Starts, KnownStarts, Describes, Fits, Total;
    if ts == [] {
      rest := [];
      NoTokens(x, x[..L]);
    } else {
      var front := ts[..|ts| - 1];
      LastToken(x, ts);
      LastKnown(x[..L], ts);
      rest := KnownSplit(x, front, L);
      var q := Total(front);
      if q + 2 >= L && q + 3 < |x| {
        assert KnownStarts(x[..L], front) + rest + [q] == KnownStarts(x[..L], front) + (rest + [q]);
        rest := rest + [q];
      }
    }
  }

  lemma NoTokens(x: seq<int>, out: seq<int>)
    ensures Starts(x, []) == [] && KnownStarts(out, []) == []
  {
  }

  lemma LastToken(x: seq<int>, ts: seq<Token>)
    requires IsBytes(x) && Describes(x, ts) && ts != []
    ensures (var front := ts[..|ts| - 1];
             && Describes(x, front) && Total(ts) > Total(front)
             && Starts(x, ts) == Starts(x, front) + if Total(front) + 3 < |x| then [Total(front)] else [])
  {
  }

  lemma LastKnown(out: seq<int>, ts: seq<Token>)
    requires ts != []
    ensures (var front := ts[..|ts| - 1];
             KnownStarts(out, ts) == KnownStarts(out, front) + if Total(front) + 2 < |out| then [Total(front)] else [])
  {
  }

  /** The decoder finds the position that the compressor meant. */
  lemma SameSlot(x: seq<int>, front: seq<Token>, h: nat, s: nat, len: nat)
    requires IsBytes(x) && Describes(x, front) && Fits(x, Starts(x, front), Total(front), Match(h, s, len))
    ensures (var out := x[..Total(front)];
             var known, full := Bucket(out, KnownStarts(out, front), h), Bucket(x, Starts(x, front), h);
             s < |known| && s < |full| && known[Latest(|known|, s)] == full[Latest(|full|, s)])
  {
    hide HashOf, Bucket, Starts, KnownStarts, Describes, Total, Latest;
    var p := Total(front);
    var rest := KnownSplit(x, front, p);
    var a := KnownStarts(x[..p], front);
    BucketPrefixText(x, a, h, p);
    RestInText(x, a, rest, Starts(x, front));
    BucketSplit(x, a, rest, h);
    SlotKnown(x, a, rest, h, s, p);
  }

  lemma SlotKnown(x: seq<int>, a: seq<nat>, rest: seq<nat>, h: nat, s: nat, p: nat)
    requires IsBytes(x) && InText(x, a) && InText(x, rest) && Beyond(rest, p)
    requires Bucket(x, a + rest, h) == Bucket(x, a, h) + Bucket(x, rest, h)
    requires s < POINTERS && s < |Bucket(x, a + rest, h)|
    requires Bucket(x, a + rest, h)[Latest(|Bucket(x, a + rest, h)|, s)] + 3 <= p
    ensures (var known, full := Bucket(x, a, h), Bucket(x, a + rest, h);
             s < |known| && known[Latest(|known|, s)] == full[Latest(|full|, s)])
  {
    hide HashOf, Bucket, Latest;
    var known, full := Bucket(x, a, h), Bucket(x, a + rest, h);
    var i := Latest(|full|, s);
    BucketBeyond(x, rest, h, p);
    if i >= |known| {
      assert false;
    }
    LatestUnique(|known|, s, i);
  }

  lemma BucketBeyond(x: seq<int>, rest: seq<nat>, h: nat, p: nat)
    requires IsBytes(x) && InText(x, rest) && Beyond(rest, p)
    ensures Beyond(Bucket(x, rest, h), p)
  {
    hide Bucket;
    BucketMembers(x, rest, h);
  }

  lemma RestInText(x: seq<int>, a: seq<nat>, rest: seq<nat>, all: seq<nat>)
    requires all == a + rest && InText(x, all)
    ensures InText(x, rest)
  {
    forall i | 0 <= i < |rest|
      ensures rest[i] + 2 < |x|
    {
      assert all[|a| + i] == rest[i];
    }
  }

  /** Tokens that describe a text rebuild it. */
  lemma {:induction false} Rebuilds(x: seq<int>, ts: seq<Token>)
    requires IsBytes(x) && Describes(x, ts)
    ensures Total(ts) <= |x| && Rebuild(ts) == Some(x[..Total(ts)])
    decreases |ts|
  {
    hide Bucket, HashOf, Latest, Starts, KnownStarts, CopyFrom;
    DescribesTotal(x, ts);
    if ts != [] {
      var front, t := ts[..|ts| - 1], ts[|ts| - 1];
      var p := Total(front);
      Rebuilds(x, front);
      match t {
        case Literal(b) =>
          assert x[..p] + [b] == x[..p + 1];
        case Match(h, s, len) =>
          SameSlot(x, front, h, s, len);
          var full := Bucket(x, Starts(x, front), h);
          CopyRepeats(x, full[Latest(|full|, s)], p, len);
      }
    }
  }
}
