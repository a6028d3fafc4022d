/** The bytes of a QuickLZ level-2 stream: control words, literals and match fields (lzip/quicklz.c). */
module QlzFormat {
  import opened Bits
  import opened Options
  import opened QlzTokens

  /** fast_write: the n low bytes of f, lowest first (quicklz.c:114-119). */
  function Bytes(f: nat, n: nat): (r: seq<int>)
    ensures |r| == n && forall i | 0 <= i < n :: 0 <= r[i] < 256
    decreases n
  {
    if n == 0 then [] else [f % 256] + Bytes(f / 256, n - 1)
  }

  /** fast_read (quicklz.c:95-104). */
  function Number(s: seq<int>): int
    decreases |s|
  {
    if s == [] then 0 else s[0] + 256 * Number(s[1..])
  }

  lemma {:induction false} NumberBytes(f: nat, n: nat)
    requires f < Pow2(8 * n)
    ensures Number(Bytes(f, n)) == f
    decreases n
  {
    if n > 0 {
      Pow2Add(8, 8 * (n - 1));
      assert Pow2(8) == 256;
      QuotientBelow(f, 256, Pow2(8 * (n - 1)));
      NumberBytes(f / 256, n - 1);
      assert Bytes(f, n)[1..] == Bytes(f / 256, n - 1);
    }
  }

  ghost predicate Encodable(t: Token) {
    match t case Literal(b) => 0 <= b < 256 case Match(h, s, len) => h < HASH_VALUES && s < POINTERS && 3 <= len <= 255
  }

  ghost predicate AllEncodable(ts: seq<Token>) {
    forall i | 0 <= i < |ts| :: Encodable(ts[i])
  }

  /** quicklz.c:401-412: short matches have their length in bits 2 to 4, long ones in a byte of its own. */
  function Field(h: nat, s: nat, len: nat): nat {
    if len < 10 then s + 4 * (if len >= 2 then len - 2 else 0) + 32 * h else s + 32 * h + 0x1_0000 * len
  }

  function FieldSize(len: nat): nat {
    if len < 10 then 2 else 3
  }

  function TokenBytes(t: Token): (r: seq<int>)
    ensures t.Match? ==> |r| == FieldSize(t.len)
    ensures t.Literal? ==> r == [t.byte]
  {
    match t
    case Literal(b) => [b]
    case Match(h, s, len) => Bytes(Field(h, s, len), FieldSize(len))
  }

  function Payload(ts: seq<Token>): seq<int> {
    if ts == [] then [] else Payload(ts[..|ts| - 1]) + TokenBytes(ts[|ts| - 1])
  }

  /** One flag per token, the first lowest: 1 for a match. */
  function Flags(ts: seq<Token>): nat {
    if ts == [] then 0 else (if ts[0].Match? then 1 else 0) + 2 * Flags(ts[1..])
  }

  /** A control word and the up to 31 tokens it describes; its top bit marks the end of the flags. */
  function Group(ts: seq<Token>): seq<int> {
    Bytes(Flags(ts) + W / 2, 4) + Payload(ts)
  }

  function Stream(ts: seq<Token>): seq<int>
    decreases |ts|
  {
    if |ts| <= 31 then Group(ts) else Group(ts[..31]) + Stream(ts[31..])
  }

  // ---------------------------------------------------------------- reading it back

  /** quicklz.c:531-546 */
  function ReadMatch(b: seq<int>, p: nat): Option<(Token, nat)> {
    if p + 2 > |b| || b[p] < 0 || b[p + 1] < 0 then None
    else
      var f := b[p] + 0x100 * b[p + 1];
      if (f / 4) % 8 != 0 then Some((Match((f / 32) % HASH_VALUES, f % 4, (f / 4) % 8 + 2), p + 2))
      else if p + 3 > |b| || b[p + 2] < 0 then None
      else Some((Match((f / 32) % HASH_VALUES, f % 4, b[p + 2]), p + 3))
  }

  /** Tokens for the given number of output bytes, from position p on; cw holds the flags not yet used. */
  function Parse(b: seq<int>, p: nat, cw: nat, remaining: nat): Option<seq<Token>>
    requires cw > 0
    decreases remaining, if cw == 1 then 1 else 0
  {
    if remaining == 0 then Some([])
    else if cw == 1 then
      if p + 4 > |b| || Number(b[p..p + 4]) <= 1 then None else Parse(b, p + 4, Number(b[p..p + 4]), remaining)
    else if cw % 2 == 0 then
      if p >= |b| then None else Prepend(Literal(b[p]), Parse(b, p + 1, cw / 2, remaining - 1))
    else
      match ReadMatch(b, p)
      case None => None
      case Some((t, p')) =>
        if Length(t) == 0 || Length(t) > remaining then None
        else Prepend(t, Parse(b, p', cw / 2, remaining - Length(t)))
  }

  function Prepend(t: Token, r: Option<seq<Token>>): Option<seq<Token>> {
    match r case None => None case Some(ts) => Some([t] + ts)
  }

  lemma FieldFacts(h: nat, s: nat, len: nat)
    requires h < HASH_VALUES && s < POINTERS && 3 <= len <= 255
    ensures (var f := Field(h, s, len);
             && (len < 10 ==> f < 0x1_0000 && (f / 4) % 8 == len - 2)
             && (len >= 10 ==> f < 0x100_0000 && (f / 4) % 8 == 0 && f / 0x1_0000 == len)
             && f % 4 == s && (f / 32) % HASH_VALUES == h)
  {
    var f := Field(h, s, len);
    if len < 10 {
      MulDivMod(f, 32, h, s + 4 * (len - 2));
      MulDivMod(f, 4, 8 * h + (len - 2), s);
      MulDivMod(8 * h + (len - 2), 8, h, len - 2);
      MulDivMod(h, HASH_VALUES, 0, h);
    } else {
      MulDivMod(f, 0x1_0000, len, s + 32 * h);
      MulDivMod(f, 32, h + 2048 * len, s);
      MulDivMod(f, 4, 8 * (h + 2048 * len), s);
      MulDivMod(8 * (h + 2048 * len), 8, h + 2048 * len, 0);
      MulDivMod(h + 2048 * len, HASH_VALUES, len, h);
    }
  }

  lemma FieldBytes(f: nat, len: nat)
    requires 3 <= len <= 255 && (len < 10 ==> f < 0x1_0000) && (len >= 10 ==> f < 0x100_0000)
    ensures (var r := Bytes(f, FieldSize(len));
             && r[0] + 0x100 * r[1] == f % 0x1_0000 && (len >= 10 ==> r[2] == f / 0x1_0000))
  {
    var r := Bytes(f, FieldSize(len));
    var q := f / 256;
    assert r[0] == f % 256 && r[1] == q % 256;
    DivMul(f, 256, 256);
    if len >= 10 {
      assert r[2] == (q / 256) % 256;
      QuotientBelow(f, 0x1_0000, 256);
    }
  }

  lemma LowField(f: nat)
    ensures (f % 0x1_0000) % 4 == f % 4 && ((f % 0x1_0000) / 4) % 8 == (f / 4) % 8
    ensures ((f % 0x1_0000) / 32) % HASH_VALUES == (f / 32) % HASH_VALUES
  {
    DivModBound(f, 0x1_0000);
    var q, g := f / 0x1_0000, f % 0x1_0000;
    DivModBound(g, 4);
    DivModBound(g, 32);
    MulDivMod(f, 4, 0x4000 * q + g / 4, g % 4);
    MulDivMod(f, 32, 0x800 * q + g / 32, g % 32);
    FieldAbove(g / 4, 8, 0x800 * q);
    FieldAbove(g / 32, HASH_VALUES, q * (0x800 / HASH_VALUES));
  }

  /** Multiples of m do not show in the remainder. */
  lemma FieldAbove(x: nat, m: nat, k: nat)
    requires m > 0
    ensures (k * m + x) % m == x % m
  {
    DivModBound(x, m);
    assert (k + x / m) * m == k * m + (x / m) * m;
    MulDivMod(k * m + x, m, k + x / m, x % m);
  }

  /** A match field reads back as written. */
  lemma MatchReadsBack(b: seq<int>, p: nat, h: nat, s: nat, len: nat)
    requires h < HASH_VALUES && s < POINTERS && 3 <= len <= 255
    requires p + FieldSize(len) <= |b| && b[p..p + FieldSize(len)] == TokenBytes(Match(h, s, len))
    ensures ReadMatch(b, p) == Some((Match(h, s, len), p + FieldSize(len)))
  {
    hide Bytes;
    var f := Field(h, s, len);
    FieldFacts(h, s, len);
    FieldBytes(f, len);
    LowField(f);
    var r := Bytes(f, FieldSize(len));
    assert b[p] == r[0] && b[p + 1] == r[1];
    if len >= 10 {
      assert b[p + 2] == r[2];
    }
  }

  // ---------------------------------------------------------------- the round trip

  lemma {:induction false} FlagsBound(ts: seq<Token>)
    ensures Flags(ts) < Pow2(|ts|)
    decreases |ts|
  {
    if ts != [] {
      FlagsBound(ts[1..]);
    }
  }

  lemma {:induction false} PayloadFront(t: Token, ts: seq<Token>)
    ensures Payload([t] + ts) == TokenBytes(t) + Payload(ts) && Total([t] + ts) == Length(t) + Total(ts)
    decreases |ts|
  {
    hide TokenBytes, Length;
    var all := [t] + ts;
    if ts == [] {
      assert all[..0] == [];
    } else {
      var front, last := ts[..|ts| - 1], ts[|ts| - 1];
      PayloadFront(t, front);
      LastPayload([t] + front, last);
      LastPayload(front, last);
      assert all == ([t] + front) + [last] && ts == front + [last];
      assert (TokenBytes(t) + Payload(front)) + TokenBytes(last) == TokenBytes(t) + (Payload(front) + TokenBytes(last));
    }
  }

  lemma LastPayload(front: seq<Token>, last: Token)
    ensures Payload(front + [last]) == Payload(front) + TokenBytes(last)
    ensures Total(front + [last]) == Total(front) + Length(last)
  {
    hide TokenBytes, Length;
    assert (front + [last])[..|front|] == front;
  }

  lemma FlagStep(cur: seq<Token>, K: nat, cw: nat)
    requires cur != [] && K >= |cur| && cw == Flags(cur) + Pow2(K)
    ensures cw > 1 && cw % 2 == (if cur[0].Match? then 1 else 0) && cw / 2 == Flags(cur[1..]) + Pow2(K - 1)
  {
  }

  /** What is still to be read: the rest of a group, then later groups. */
  ghost predicate Ahead(b: seq<int>, p: nat, cur: seq<Token>, later: seq<Token>) {
    p <= |b| && Payload(cur) + (if later == [] then [] else Stream(later)) <= b[p..]
  }

  lemma AheadToken(b: seq<int>, p: nat, cur: seq<Token>, later: seq<Token>)
    requires Ahead(b, p, cur, later) && cur != []
    ensures (var n := |TokenBytes(cur[0])|;
             p + n <= |b| && b[p..p + n] == TokenBytes(cur[0]) && Ahead(b, p + n, cur[1..], later))
    ensures Total(cur) == Length(cur[0]) + Total(cur[1..])
  {
    hide Payload, Stream, TokenBytes, Total;
    PayloadFront(cur[0], cur[1..]);
    assert cur == [cur[0]] + cur[1..];
    var n := |TokenBytes(cur[0])|;
    var rest := Payload(cur[1..]) + if later == [] then [] else Stream(later);
    PrefixSplit(b, p, TokenBytes(cur[0]), rest);
    assert Payload(cur) + (if later == [] then [] else Stream(later)) == TokenBytes(cur[0]) + rest;
  }

  lemma PrefixSplit(b: seq<int>, p: nat, x: seq<int>, y: seq<int>)
    requires p <= |b| && x + y <= b[p..]
    ensures p + |x| <= |b| && b[p..p + |x|] == x && y <= b[p + |x|..]
  {
    var z := b[p..];
    assert z[..|x + y|] == x + y;
    assert z[..|x|] == x && z[|x|..|x| + |y|] == y;
    assert z[|x|..] == b[p + |x|..];
  }

  lemma AheadGroup(b: seq<int>, p: nat, later: seq<Token>) returns (cur: seq<Token>, next: seq<Token>)
    requires Ahead(b, p, [], later) && later != []
    ensures cur != [] && |cur| <= 31 && (next != [] ==> |cur| == 31) && later == cur + next
    ensures p + 4 <= |b| && b[p..p + 4] == Bytes(Flags(cur) + W / 2, 4) && Ahead(b, p + 4, cur, next)
  {
    hide Bytes, Flags, Payload, Stream, Ahead;
    OnlyLater(b, p, later);
    if |later| <= 31 {
      cur, next := later, [];
    } else {
      cur, next := later[..31], later[31..];
    }
    var word, rest := Bytes(Flags(cur) + W / 2, 4), Payload(cur) + if next == [] then [] else Stream(next);
    StreamFirst(later, cur, next);
    PrefixSplit(b, p, word, rest);
    NowAhead(b, p + 4, cur, next, rest);
  }

  lemma OnlyLater(b: seq<int>, p: nat, later: seq<Token>)
    requires Ahead(b, p, [], later) && later != []
    ensures p <= |b| && Stream(later) <= b[p..]
  {
    hide Stream;
    assert [] + Stream(later) == Stream(later);
  }

  lemma NowAhead(b: seq<int>, p: nat, cur: seq<Token>, later: seq<Token>, rest: seq<int>)
    requires p <= |b| && rest <= b[p..] && rest == Payload(cur) + if later == [] then [] else Stream(later)
    ensures Ahead(b, p, cur, later)
  {
    hide Stream, Payload;
  }

  lemma StreamFirst(later: seq<Token>, cur: seq<Token>, next: seq<Token>)
    requires later == cur + next && later != [] && |cur| <= 31 && (next != [] ==> |cur| == 31)
    ensures Stream(later) == Bytes(Flags(cur) + W / 2, 4) + (Payload(cur) + if next == [] then [] else Stream(next))
  {
    hide Bytes, Flags, Payload;
    if next == [] {
      assert later == cur;
    } else {
      assert later[..31] == cur && later[31..] == next;
    }
  }

  lemma WordReads(cur: seq<Token>)
    requires |cur| <= 31
    ensures Number(Bytes(Flags(cur) + W / 2, 4)) == Flags(cur) + Pow2(31) > 1
  {
    hide Bytes, Number, Flags;
    Pow2Values();
    FlagsBound(cur);
    Pow2Monotone(|cur|, 31);
    NumberBytes(Flags(cur) + W / 2, 4);
  }

  lemma {:induction false} TotalAppend(a: seq<Token>, b: seq<Token>)
    ensures Total(a + b) == Total(a) + Total(b)
    decreases |b|
  {
    if b == [] {
      assert a + b == a;
    } else {
      assert (a + b)[..|a + b| - 1] == a + b[..|b| - 1];
      TotalAppend(a, b[..|b| - 1]);
    }
  }

  lemma {:induction false} ParseAhead(b: seq<int>, p: nat, cur: seq<Token>, K: nat, later: seq<Token>, cw: nat)
    requires Ahead(b, p, cur, later) && AllEncodable(cur) && AllEncodable(later)
    requires |cur| <= K <= 31 && (later != [] ==> K == |cur|) && cw == Flags(cur) + Pow2(K)
    ensures cw > 0 && Parse(b, p, cw, Total(cur) + Total(later)) == Some(cur + later)
    decreases |cur| + |later|, if cur == [] then 1 else 0
  {
    hide Ahead, Total, Payload, Stream, TokenBytes, Flags, Number, Bytes, Parse, Pow2, Encodable;
    EmptyTokens();
    PowerPositive(K);
    if cur == [] && later == [] {
      ParseNothing(b, p, cw);
      assert cur + later == [];
    } else if cur == [] {
      var g, next := AheadGroup(b, p, later);
      WordReads(g);
      EncodableParts(g, next);
      ParseAhead(b, p + 4, g, 31, next, Flags(g) + Pow2(31));
      TotalAppend(g, next);
      SomeBytes(later);
      ParseWord(b, p, Total(later));
      assert cur + later == later;
    } else {
      var t := cur[0];
      FlagStep(cur, K, cw);
      AheadToken(b, p, cur, later);
      var n := |TokenBytes(t)|;
      ParseAhead(b, p + n, cur[1..], K - 1, later, cw / 2);
      ParseToken(b, p, cw, t, Total(cur[1..]) + Total(later));
      assert cur + later == [t] + (cur[1..] + later);
    }
  }

  lemma PowerPositive(K: nat)
    ensures Pow2(K) > 0
  {
  }

  lemma EncodableParts(a: seq<Token>, b: seq<Token>)
    requires AllEncodable(a + b)
    ensures AllEncodable(a) && AllEncodable(b)
  {
    hide Encodable;
    forall i | 0 <= i < |a|
      ensures Encodable(a[i])
    {
      assert Encodable((a + b)[i]);
    }
    forall i | 0 <= i < |b|
      ensures Encodable(b[i])
    {
      assert Encodable((a + b)[|a| + i]);
    }
  }

  lemma ParseNothing(b: seq<int>, p: nat, cw: nat)
    requires cw > 0
    ensures Parse(b, p, cw, 0) == Some([])
  {
  }

  lemma ParseWord(b: seq<int>, p: nat, r: nat)
    requires r > 0 && p + 4 <= |b| && Number(b[p..p + 4]) > 1
    ensures Parse(b, p, 1, r) == Parse(b, p + 4, Number(b[p..p + 4]), r)
  {
    hide Number;
  }

  lemma ParseToken(b: seq<int>, p: nat, cw: nat, t: Token, r: nat)
    requires Encodable(t) && cw > 1 && cw % 2 == (if t.Match? then 1 else 0)
    requires p + |TokenBytes(t)| <= |b| && b[p..p + |TokenBytes(t)|] == TokenBytes(t)
    ensures Parse(b, p, cw, Length(t) + r) == Prepend(t, Parse(b, p + |TokenBytes(t)|, cw / 2, r))
  {
    hide ReadMatch;
    if t.Match? {
      MatchReadsBack(b, p, t.hash, t.slot, t.len);
      MatchSize(t);
    } else {
      LiteralByte(b, p, t);
    }
  }

  lemma EmptyTokens()
    ensures Total([]) == 0 && Flags([]) == 0 && Pow2(0) == 1
  {
  }

  lemma MatchSize(t: Token)
    requires t.Match?
    ensures |TokenBytes(t)| == FieldSize(t.len)
  {
  }

  lemma LiteralByte(b: seq<int>, p: nat, t: Token)
    requires t.Literal? && p + |TokenBytes(t)| <= |b| && b[p..p + |TokenBytes(t)|] == TokenBytes(t)
    ensures |TokenBytes(t)| == 1 && b[p] == t.byte
  {
    assert b[p..p + 1][0] == b[p];
  }

  lemma SomeBytes(ts: seq<Token>)
    requires ts != [] && AllEncodable(ts)
    ensures Total(ts) > 0
  {
    assert Encodable(ts[|ts| - 1]);
  }

  /** The stream of a token sequence reads back as that sequence. */
  lemma StreamReadsBack(b: seq<int>, ts: seq<Token>)
    requires AllEncodable(ts) && ts != [] && Stream(ts) <= b
    ensures Parse(b, 0, 1, Total(ts)) == Some(ts)
  {
    hide Total, Stream, Parse, Flags;
    EmptyTokens();
    assert Payload([]) == [] && b[0..] == b;
    assert [] + Stream(ts) == Stream(ts);
    assert Ahead(b, 0, [], ts);
    ParseAhead(b, 0, [], 0, ts, 1);
    assert [] + ts == ts;
  }
}
