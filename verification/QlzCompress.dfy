/** The level-2 QuickLZ compressor (lzip/quicklz.c): what it writes stands for the source, and how long it can get. */
module QlzCompress {
  import opened Bits
  import opened QlzTokens
  import opened QlzFormat
  import opened QlzTable
  import opened QlzEmit
  import opened QlzGreedy
  import BitMask

  // ---------------------------------------------------------------- writing

  lemma {:induction false} BytesFrom(f: nat, n: nat, i: nat, g: nat)
    requires i < n && Bytes(f, n)[i..] == Bytes(g, n - i)
    ensures Bytes(f, n)[i] == g % 256 && Bytes(f, n)[i + 1..] == Bytes(g / 256, n - (i + 1))
  {
    assert Bytes(f, n)[i..][0] == Bytes(f, n)[i];
    assert Bytes(f, n)[i..][1..] == Bytes(f, n)[i + 1..];
    assert Bytes(g, n - i)[1..] == Bytes(g / 256, n - i - 1);
  }

  /** quicklz.c:114-119 */
  method FastWrite(f: nat, dst: array<int>, at: nat, n: nat)
    requires at + n <= dst.Length
    modifies dst
    ensures dst[..] == old(dst[..at]) + Bytes(f, n) + old(dst[at + n..])
  {
    hide Bytes;
    var g, i := f, 0;
    assert Bytes(f, n)[0..] == Bytes(f, n);
    while i != n
      invariant 0 <= i <= n && g >= 0 && Bytes(f, n)[i..] == Bytes(g, n - i)
      invariant dst[..] == old(dst[..at]) + Bytes(f, n)[..i] + old(dst[at + i..])
      decreases n - i
    {
      BytesFrom(f, n, i, g);
      assert Bytes(f, n)[..i + 1] == Bytes(f, n)[..i] + [Bytes(f, n)[i]];
      dst[at + i] := g % 256;
      g := g / 256;
      i := i + 1;
    }
    assert Bytes(f, n)[..n] == Bytes(f, n);
  }

  /** The fields do not overlap, so or is addition. */
  lemma ShortField(h: nat, k: nat, len: nat)
    requires h < HASH_VALUES && k < POINTERS && 3 <= len < 10
    ensures Or(Or(k, Shl32(len - 2, 2)), Shl32(h, 5)) == Field(h, k, len)
  {
    hide Or;
    assert Pow2(2) == 4 && Pow2(5) == 32;
    OrCommutes(k, 4 * (len - 2));
    OrDisjoint(4 * (len - 2), k, 2, 4);
    OrCommutes(k + 4 * (len - 2), 32 * h);
    OrDisjoint(32 * h, k + 4 * (len - 2), 5, 32);
  }

  lemma LongField(h: nat, k: nat, len: nat)
    requires h < HASH_VALUES && k < POINTERS && 10 <= len <= 255
    ensures Or(Or(k, Shl32(len, 16)), Shl32(h, 5)) == Field(h, k, len)
  {
    hide Or;
    assert Pow2(2) == 4 && Pow2(5) == 32 && Pow2(16) == 0x1_0000;
    OrCommutes(k, 0x1_0000 * len);
    OrDisjoint(0x1_0000 * len, k, 16, 0x1_0000);
    MulDivMod(0x1_0000 * len, 0x1_0000, len, 0);
    BitMask.OrAbove(0x1_0000 * len, k, 32 * h, 16, 0x1_0000);
    OrCommutes(k, 32 * h);
    OrDisjoint(32 * h, k, 5, 32);
  }

  /** quicklz.c:401-412 */
  method PutMatch(dst: array<int>, d: nat, h: nat, bestK: nat, matchlen: nat) returns (d': nat)
    requires h < HASH_VALUES && bestK < POINTERS && 3 <= matchlen <= 255 && d + 3 <= dst.Length
    modifies dst
    ensures d' == d + |TokenBytes(Match(h, bestK, matchlen))| && d' <= d + 3
    ensures dst[..] == old(dst[..d]) + TokenBytes(Match(h, bestK, matchlen)) + old(dst[d'..])
  {
    hide Or, Shl32, Bytes, Field;
    if matchlen < 10 {
      ShortField(h, bestK, matchlen);
      var f := Or(Or(bestK, Shl32(matchlen - 2, 2)), Shl32(h, 5));
      FastWrite(f, dst, d, 2);
      d' := d + 2;
    } else {
      LongField(h, bestK, matchlen);
      var f := Or(Or(bestK, Shl32(matchlen, 16)), Shl32(h, 5));
      FastWrite(f, dst, d, 3);
      d' := d + 3;
    }
  }

  // ---------------------------------------------------------------- the state of the compressor

  /** The tokens so far describe the first src bytes, and are what has been written. */
  ghost predicate Written(x: seq<int>, D: seq<int>, d0: nat, src: nat, cwp: nat, d: nat, cw: nat, done: seq<Token>,
                          cur: seq<Token>) {
    && IsBytes(x) && Describes(x, done + cur) && Total(done + cur) == src && AllEncodable(done + cur)
    && Emitting(D, d0, cwp, d, cw, done, cur)
  }

  /**
   * Past the middle of the source, output has never been ahead of input when a control word was begun (quicklz.c:204).
   */
  ghost predicate Compact(x: seq<int>, d0: nat, cwp: nat, done: seq<Token>) {
    d0 <= cwp && (Total(done) <= |x| / 2 || cwp - d0 <= Total(done))
  }

  lemma Sizes(x: seq<int>, D: seq<int>, d0: nat, src: nat, cwp: nat, d: nat, cw: nat, done: seq<Token>, cur: seq<Token>)
    requires Written(x, D, d0, src, cwp, d, cw, done, cur)
    ensures d0 <= cwp && cwp + 4 <= d <= |D| && |cur| <= 31 && src <= |x| && 0 < cw < W
    ensures (cw % 2 == 1 <==> |cur| == 31)
    ensures 31 * (cwp - d0) <= 35 * Total(done) && Total(done) + |cur| <= src
    ensures d - cwp <= 4 + (src - Total(done)) && d - cwp <= 4 + 3 * |cur|
  {
    hide FullGroups, Payload, Describes, Total, Encodable;
    EncodableParts(done, cur);
    TotalAppend(done, cur);
    FullShort(done);
    PayloadShort(cur);
    WordRange(cw, cur);
    DescribesTotal(x, done + cur);
    assert |D[d0..cwp]| == cwp - d0 && |D[cwp + 4..d]| == d - (cwp + 4);
  }

  /** The bound on the output while matches are looked for. */
  lemma MainBound(x: seq<int>, D: seq<int>, d0: nat, src: nat, cwp: nat, d: nat, cw: nat, done: seq<Token>,
                  cur: seq<Token>)
    requires Written(x, D, d0, src, cwp, d, cw, done, cur) && Compact(x, d0, cwp, done)
    ensures d - d0 <= src + 4 || 62 * (d - d0 - 97) <= 35 * |x|
    ensures d - d0 <= |x| + 97
  {
    hide Written;
    Sizes(x, D, d0, src, cwp, d, cw, done, cur);
  }

  lemma WriteToken(x: seq<int>, D: seq<int>, D': seq<int>, d0: nat, src: nat, cwp: nat, d: nat, cw: nat,
                   done: seq<Token>, cur: seq<Token>, t: Token)
    requires Written(x, D, d0, src, cwp, d, cw, done, cur) && |cur| < 31 && d + |TokenBytes(t)| <= |D|
    requires Fits(x, Starts(x, done + cur), src, t) && Encodable(t)
    requires D' == D[..d] + TokenBytes(t) + D[d + |TokenBytes(t)|..]
    ensures Written(x, D', d0, src + Length(t), cwp, d + |TokenBytes(t)|, Shifted(cw, t.Match?), done, cur + [t])
    ensures src + 3 < |x| ==> Starts(x, done + (cur + [t])) == Starts(x, done + cur) + [src]
    ensures src + 3 >= |x| ==> Starts(x, done + (cur + [t])) == Starts(x, done + cur)
  {
    hide Emitting, Describes, Starts, Total, Fits, TokenBytes, Shifted;
    EmitToken(D, D', d0, cwp, d, cw, done, cur, t);
    DescribesAppend(x, done + cur, t);
    assert done + (cur + [t]) == (done + cur) + [t];
    EncodableLength(t);
  }

  lemma EncodableLength(t: Token)
    requires Encodable(t)
    ensures 0 < Length(t)
  {
  }

  lemma WriteFlush(x: seq<int>, D: seq<int>, D': seq<int>, d0: nat, src: nat, cwp: nat, d: nat, cw: nat,
                   done: seq<Token>, cur: seq<Token>)
    requires Written(x, D, d0, src, cwp, d, cw, done, cur) && |cur| == 31 && d + 4 <= |D|
    requires D' == D[..cwp] + Bytes(Or(W / 2, cw / 2), 4) + D[cwp + 4..]
    ensures Written(x, D', d0, src, d, d + 4, W / 2, done + cur, []) && (done + cur) + [] == done + cur
  {
    hide Emitting, Describes, Starts, Total;
    EmitFlush(D, D', d0, cwp, d, cw, done, cur);
    assert (done + cur) + [] == done + cur;
  }

  lemma LiteralFits(x: seq<int>, starts: seq<nat>, src: nat)
    requires IsBytes(x) && InText(x, starts) && src < |x|
    ensures Fits(x, starts, src, Literal(x[src])) && Encodable(Literal(x[src]))
    ensures TokenBytes(Literal(x[src])) == [x[src]]
  {
  }

  lemma MatchFits(x: seq<int>, starts: seq<nat>, src: nat, h: nat, k: nat, len: nat)
    requires IsBytes(x) && InText(x, starts) && Fits(x, starts, src, Match(h, k, len))
    ensures Encodable(Match(h, k, len)) && src + len + 4 <= |x|
  {
    HashRange(x, src);
  }

  lemma StartsBefore(x: seq<int>, ts: seq<Token>)
    requires IsBytes(x)
    ensures InText(x, Starts(x, ts)) && Before(Starts(x, ts), Total(ts))
  {
  }

  lemma PlainShift(cw: nat)
    ensures Shifted(cw, false) == cw / 2
  {
  }

  // ---------------------------------------------------------------- the compressor

  /** One literal written, quicklz.c:416-419 and 454-457. */
  method PutLiteral(x: seq<int>, dst: array<int>, ghost d0: nat, src: nat, ghost cwp: nat, d: nat, cw: nat,
                    ghost done: seq<Token>, ghost cur: seq<Token>)
    requires Written(x, dst[..], d0, src, cwp, d, cw, done, cur) && |cur| < 31 && d < dst.Length && src < |x|
    modifies dst
    ensures Written(x, dst[..], d0, src + 1, cwp, d + 1, cw / 2, done, cur + [Literal(x[src])])
    ensures dst[..d0] == old(dst[..d0])
    ensures src + 3 < |x| ==> Starts(x, done + (cur + [Literal(x[src])])) == Starts(x, done + cur) + [src]
    ensures src + 3 >= |x| ==> Starts(x, done + (cur + [Literal(x[src])])) == Starts(x, done + cur)
  {
    hide Written, Starts, Fits, Encodable;
    ghost var D := dst[..];
    BytesOf(x, D, d0, src, cwp, d, cw, done, cur);
    StartsBefore(x, done + cur);
    LiteralFits(x, Starts(x, done + cur), src);
    PlainShift(cw);
    dst[d] := x[src];
    assert dst[..] == D[..d] + [x[src]] + D[d + 1..];
    WriteToken(x, D, dst[..], d0, src, cwp, d, cw, done, cur, Literal(x[src]));
    Sizes(x, D, d0, src, cwp, d, cw, done, cur);
  }

  lemma BytesOf(x: seq<int>, D: seq<int>, d0: nat, src: nat, cwp: nat, d: nat, cw: nat, done: seq<Token>,
                cur: seq<Token>)
    requires Written(x, D, d0, src, cwp, d, cw, done, cur)
    ensures IsBytes(x) && Describes(x, done + cur) && Total(done + cur) == src && AllEncodable(done + cur)
  {
  }

  /** One match written, quicklz.c:398-412. */
  method PutToken(x: seq<int>, dst: array<int>, ghost d0: nat, src: nat, ghost cwp: nat, d: nat, cw: nat,
                  ghost done: seq<Token>, ghost cur: seq<Token>, h: nat, k: nat, len: nat) returns (d': nat)
    requires Written(x, dst[..], d0, src, cwp, d, cw, done, cur) && |cur| < 31 && d + 3 <= dst.Length && len > 2
    requires IsBytes(x) && Fits(x, Starts(x, done + cur), src, Match(h, k, len)) && src + 3 < |x|
    modifies dst
    ensures Written(x, dst[..], d0, src + len, cwp, d', Shifted(cw, true), done, cur + [Match(h, k, len)])
    ensures dst[..d0] == old(dst[..d0]) && Starts(x, done + (cur + [Match(h, k, len)])) == Starts(x, done + cur) + [src]
  {
    hide Written, Starts, Fits;
    ghost var D := dst[..];
    StartsBefore(x, done + cur);
    MatchFits(x, Starts(x, done + cur), src, h, k, len);
    d' := PutMatch(dst, d, h, k, len);
    WriteToken(x, D, dst[..], d0, src, cwp, d, cw, done, cur, Match(h, k, len));
    Sizes(x, D, d0, src, cwp, d, cw, done, cur);
  }

  /** The control word stored and the next one begun, quicklz.c:207-211 and 429-432. */
  method Flush(ghost x: seq<int>, dst: array<int>, ghost d0: nat, ghost src: nat, cwp: nat, d: nat, cw: nat,
               ghost done: seq<Token>, ghost cur: seq<Token>)
    requires Written(x, dst[..], d0, src, cwp, d, cw, done, cur) && cw % 2 == 1 && d + 4 <= dst.Length
    modifies dst
    ensures Written(x, dst[..], d0, src, d, d + 4, W / 2, done + cur, []) && dst[..d0] == old(dst[..d0])
    ensures (done + cur) + [] == done + cur
  {
    hide Written, Or, Bytes;
    ghost var D := dst[..];
    Sizes(x, D, d0, src, cwp, d, cw, done, cur);
    FastWrite(Or(W / 2, cw / 2), dst, cwp, 4);
    WriteFlush(x, D, dst[..], d0, src, cwp, d, cw, done, cur);
  }

  lemma FlushCompact(x: seq<int>, D: seq<int>, d0: nat, src: nat, cwp: nat, d: nat, cw: nat, done: seq<Token>,
                     cur: seq<Token>)
    requires Written(x, D, d0, src, cwp, d, cw, done, cur) && !(src > |x| / 2 && d - d0 > src - src / 32)
    ensures Compact(x, d0, d, done + cur)
  {
    Sizes(x, D, d0, src, cwp, d, cw, done, cur);
  }

  /** The tokens are those the rules call for, and the compressor has not had to give up before the last of them. */
  ghost predicate OnTrack(x: seq<int>, done: seq<Token>, cur: seq<Token>) {
    && IsBytes(x) && Greedy(x, done + cur) && NotYet(x, done + cur) && |done| % 31 == 0 && (done == [] || cur != [])
  }

  /** Nor at it: the next token is due. */
  ghost predicate Ready(x: seq<int>, done: seq<Token>, cur: seq<Token>) {
    IsBytes(x) && Greedy(x, done + cur) && NeverGaveUp(x, done + cur) && |done| % 31 == 0
  }

  /** The test at a control word, quicklz.c:203-205. */
  lemma RatioTest(x: seq<int>, D: seq<int>, d0: nat, src: nat, cwp: nat, d: nat, cw: nat, done: seq<Token>,
                  cur: seq<Token>)
    requires Written(x, D, d0, src, cwp, d, cw, done, cur) && OnTrack(x, done, cur)
    ensures d0 <= d && (GivesUp(x, done + cur) <==>
                        |cur| == 31 && src + 11 <= |x| && src > |x| / 2 && d - d0 > src - src / 32)
    ensures !GivesUp(x, done + cur) ==> Ready(x, done, cur)
  {
    hide Greedy, Payload, Flags, Bytes, Describes, Total, Encodable, FullGroups, Word;
    Sizes(x, D, d0, src, cwp, d, cw, done, cur);
    assert |done + cur| == |done| + |cur|;
    if |cur| == 31 {
      FullAppend(done, cur);
      assert |D[d0..cwp]| == cwp - d0 && |D[cwp + 4..d]| == d - (cwp + 4);
    }
    if !GivesUp(x, done + cur) {
      NotNow(x, done + cur);
    }
  }

  lemma TrackGreedy(x: seq<int>, done: seq<Token>, cur: seq<Token>)
    requires OnTrack(x, done, cur)
    ensures IsBytes(x) && Greedy(x, done + cur)
  {
  }

  lemma TrackFlushed(x: seq<int>, done: seq<Token>, cur: seq<Token>)
    requires Ready(x, done, cur) && |cur| == 31
    ensures Ready(x, done + cur, [])
  {
    hide Greedy, NeverGaveUp;
    assert (done + cur) + [] == done + cur;
  }

  lemma TrackStep(x: seq<int>, done: seq<Token>, cur: seq<Token>, src: nat, t: Token)
    requires Ready(x, done, cur) && src == Total(done + cur) && InText(x, Starts(x, done + cur))
    requires Next(x, Starts(x, done + cur), src, t)
    ensures OnTrack(x, done, cur + [t])
  {
    hide Greedy, Starts, Total, Next, GivesUp, NeverGaveUp, NotYet;
    assert done + (cur + [t]) == (done + cur) + [t];
    GreedyAppend(x, done + cur, t);
    NotBefore(x, done + cur, t);
  }

  /** Among the last bytes the compressor does not give up any more. */
  lemma TrackTail(x: seq<int>, D: seq<int>, d0: nat, src: nat, cwp: nat, d: nat, cw: nat, done: seq<Token>,
                  cur: seq<Token>)
    requires Ready(x, done, cur) && Written(x, D, d0, src, cwp, d, cw, done, cur) && src < |x| < src + 11
    ensures Ready(x, done, cur + [Literal(x[src])])
  {
    hide Greedy, Starts, FullGroups, NeverGaveUp, NotYet, Describes, Encodable, Emitting;
    var t := Literal(x[src]);
    assert done + (cur + [t]) == (done + cur) + [t];
    StartsBefore(x, done + cur);
    GreedyAppend(x, done + cur, t);
    NotBefore(x, done + cur, t);
    assert ((done + cur) + [t])[..|done + cur|] == done + cur;
    NotNow(x, (done + cur) + [t]);
  }

  lemma NextMain(x: seq<int>, starts: seq<nat>, src: nat, t: Token)
    requires IsBytes(x) && InText(x, starts) && src + 11 <= |x| && Chosen(x, starts, src, t)
    ensures Next(x, starts, src, t) && Fits(x, starts, src, t) && (t.Match? ==> t.len <= 255 && src + t.len + 4 <= |x|)
  {
    hide Repeats, HashAt, Bucket, Latest;
    ChosenFits(x, starts, src, t);
  }

  /** One token chosen and written, quicklz.c:276-422. */
  method PutChosen(x: seq<int>, dst: array<int>, d0: nat, table: Table, src: nat, ghost cwp: nat, d: nat, cw: nat,
                   ghost done: seq<Token>, ghost cur: seq<Token>)
    returns (src': nat, d': nat, cw': nat, ghost t: Token)
    requires Written(x, dst[..], d0, src, cwp, d, cw, done, cur) && |cur| < 31 && d + 3 <= dst.Length
    requires src + 11 <= |x| && dst != table.counter && table.Valid(x, Starts(x, done + cur))
    modifies dst, table.offset, table.counter
    ensures IsBytes(x) && InText(x, Starts(x, done + cur)) && Next(x, Starts(x, done + cur), src, t)
    ensures Written(x, dst[..], d0, src', cwp, d', cw', done, cur + [t]) && src < src' && src' + 4 <= |x|
    ensures table.Valid(x, Starts(x, done + (cur + [t]))) && d0 <= dst.Length && dst[..d0] == old(dst[..d0])
  {
    hide Written, Starts, Fits, Shifted, Table.Valid, Chosen, Next;
    Sizes(x, dst[..], d0, src, cwp, d, cw, done, cur);
    ghost var starts := Starts(x, done + cur);
    CurrentStarts(x, dst[..], d0, src, cwp, d, cw, done, cur);
    var lastByte := |x| - 1;
    var remaining := if lastByte - 4 - src + 1 > 255 then 255 else lastByte - 4 - src + 1;
    var h, matchlen, bestK := table.FindMatch(x, starts, src, remaining);
    table.Insert(x, starts, h, src);
    t := if matchlen > 2 then Match(h, bestK, matchlen) else Literal(x[src]);
    NextMain(x, starts, src, t);
    if matchlen > 2 {
      d' := PutToken(x, dst, d0, src, cwp, d, cw, done, cur, h, bestK, matchlen);
      cw' := Shifted(cw, true);
      src' := src + matchlen;
    } else {
      PutLiteral(x, dst, d0, src, cwp, d, cw, done, cur);
      cw', src', d' := cw / 2, src + 1, d + 1;
    }
  }

  /** quicklz.c:196-424: while matches may start. False: the data does not compress. */
  method MainLoop(x: seq<int>, dst: array<int>, d0: nat, table: Table)
    returns (ok: bool, src: nat, cwp: nat, d: nat, cw: nat, ghost done: seq<Token>, ghost cur: seq<Token>)
    requires IsBytes(x) && x != [] && table.Valid(x, []) && dst != table.counter && d0 + |x| + 391 <= dst.Length
    modifies dst, table.offset, table.counter
    ensures dst[..d0] == old(dst[..d0])
    ensures if ok then Ready(x, done, cur) else Greedy(x, done + cur) && GivesUp(x, done + cur)
    ensures ok ==> Written(x, dst[..], d0, src, cwp, d, cw, done, cur) && Compact(x, d0, cwp, done)
    ensures ok ==> table.Valid(x, Starts(x, done + cur)) && src < |x| <= src + 10
  {
    hide Written, Starts, Fits, Shifted, Table.Valid, Compact, OnTrack, Ready, Greedy, GivesUp, Chosen, Next;
    var lastByte := |x| - 1;
    src, cwp, d, cw, done, cur := 0, d0, d0 + 4, W / 2, [], [];
    var lastMatchstart := lastByte - 6 - 4;
    FirstWritten(x, dst[..], d0);
    while src <= lastMatchstart
      invariant Written(x, dst[..], d0, src, cwp, d, cw, done, cur) && Compact(x, d0, cwp, done)
      invariant OnTrack(x, done, cur)
      invariant table.Valid(x, Starts(x, done + cur)) && dst[..d0] == old(dst[..d0]) && (src == 0 || src + 4 <= |x|)
      decreases |x| - src
    {
      Sizes(x, dst[..], d0, src, cwp, d, cw, done, cur);
      MainBound(x, dst[..], d0, src, cwp, d, cw, done, cur);
      RatioTest(x, dst[..], d0, src, cwp, d, cw, done, cur);
      if cw % 2 == 1 {
        if src > |x| / 2 && d - d0 > src - src / 32 {
          TrackGreedy(x, done, cur);
          return false, src, cwp, d, cw, done, cur;
        }
        FlushCompact(x, dst[..], d0, src, cwp, d, cw, done, cur);
        Flush(x, dst, d0, src, cwp, d, cw, done, cur);
        TrackFlushed(x, done, cur);
        cwp, d, cw, done, cur := d, d + 4, W / 2, done + cur, [];
        MainBound(x, dst[..], d0, src, cwp, d, cw, done, cur);
      }
      ghost var t;
      BytesOf(x, dst[..], d0, src, cwp, d, cw, done, cur);
      ghost var was := src;
      src, d, cw, t := PutChosen(x, dst, d0, table, src, cwp, d, cw, done, cur);
      TrackStep(x, done, cur, was, t);
      cur := cur + [t];
      Sizes(x, dst[..], d0, src, cwp, d, cw, done, cur);
    }
    RatioTest(x, dst[..], d0, src, cwp, d, cw, done, cur);
    ok := true;
  }

  lemma FirstWritten(x: seq<int>, D: seq<int>, d0: nat)
    requires IsBytes(x) && d0 + 4 <= |D|
    ensures Written(x, D, d0, 0, d0, d0 + 4, W / 2, [], []) && Compact(x, d0, d0, []) && Starts(x, []) == []
    ensures OnTrack(x, [], [])
    ensures forall ts: seq<Token> :: ts + [] == ts
  {
    var none: seq<Token> := [];
    assert none + none == none;
    EmitStart(D, d0);
  }

  lemma CurrentStarts(x: seq<int>, D: seq<int>, d0: nat, src: nat, cwp: nat, d: nat, cw: nat, done: seq<Token>,
                      cur: seq<Token>)
    requires Written(x, D, d0, src, cwp, d, cw, done, cur)
    ensures IsBytes(x) && InText(x, Starts(x, done + cur)) && Before(Starts(x, done + cur), src)
  {
    StartsBefore(x, done + cur);
  }

  /** quicklz.c:425-458: the last bytes are literals; a control word falls due at most once among them. */
  method TailLoop(x: seq<int>, dst: array<int>, d0: nat, table: Table, src0: nat, cwp0: nat, dm: nat, cw0: nat,
                  ghost done0: seq<Token>, ghost cur0: seq<Token>)
    returns (cwp: nat, d: nat, cw: nat, ghost done: seq<Token>, ghost cur: seq<Token>)
    requires Written(x, dst[..], d0, src0, cwp0, dm, cw0, done0, cur0) && src0 < |x| <= src0 + 10
    requires table.Valid(x, Starts(x, done0 + cur0)) && dst != table.counter && d0 <= dst.Length
    requires dm + 14 <= dst.Length && Ready(x, done0, cur0)
    modifies dst, table.offset, table.counter
    ensures Written(x, dst[..], d0, |x|, cwp, d, cw, done, cur) && cur != [] && dst[..d0] == old(dst[..d0])
    ensures Ready(x, done, cur)
    ensures d <= dm + (|x| - src0) + 4
  {
    hide Written, Starts, Table.Valid, HashAt, Ready;
    var lastByte, src := |x| - 1, src0;
    cwp, d, cw, done, cur := cwp0, dm, cw0, done0, cur0;
    ghost var flushed := false;
    while src <= lastByte
      invariant src0 <= src <= |x| && Written(x, dst[..], d0, src, cwp, d, cw, done, cur)
      invariant table.Valid(x, Starts(x, done + cur)) && dst[..d0] == old(dst[..d0])
      invariant d <= dm + (src - src0) + (if flushed then 4 else 0) && (flushed ==> |cur| <= src - src0)
      invariant (src > src0 ==> cur != []) && Ready(x, done, cur)
    {
      Sizes(x, dst[..], d0, src, cwp, d, cw, done, cur);
      if cw % 2 == 1 {
        Flush(x, dst, d0, src, cwp, d, cw, done, cur);
        TrackFlushed(x, done, cur);
        cwp, d, cw, done, cur := d, d + 4, W / 2, done + cur, [];
        flushed := true;
      }
      ghost var starts := Starts(x, done + cur);
      CurrentStarts(x, dst[..], d0, src, cwp, d, cw, done, cur);
      if src <= lastByte - 3 {
        HashRange(x, src);
        table.Insert(x, starts, HashAt(x, src), src);
      }
      TrackTail(x, dst[..], d0, src, cwp, d, cw, done, cur);
      PutLiteral(x, dst, d0, src, cwp, d, cw, done, cur);
      cur := cur + [Literal(x[src])];
      cw, src, d := cw / 2, src + 1, d + 1;
      Sizes(x, dst[..], d0, src, cwp, d, cw, done, cur);
    }
  }

  /** What a successful run of the compressor has left at d0: the stream of the tokens that the rules call for. */
  ghost predicate Compressed(x: seq<int>, D: seq<int>, d0: nat, r: nat, ts: seq<Token>) {
    && IsBytes(x) && Greedy(x, ts) && Describes(x, ts) && Total(ts) == |x| && AllEncodable(ts) && ts != []
    && d0 + |Stream(ts)| <= |D| && D[d0..d0 + |Stream(ts)|] == Stream(ts)
    && r == (if |Stream(ts)| < 9 then 9 else |Stream(ts)|) && Bounded(|x|, |Stream(ts)|)
  }

  /** At most eight bytes longer than the source, or at most 35/62 of it and 111 bytes. */
  predicate Bounded(n: nat, m: nat) {
    m <= n + 8 || 62 * (m - 111) <= 35 * n
  }

  /** quicklz.c:183-467; 0 when the data does not compress. */
  method CompressCore(x: seq<int>, dst: array<int>, d0: nat, table: Table) returns (r: nat, ghost ts: seq<Token>)
    requires IsBytes(x) && x != [] && table.Valid(x, []) && dst != table.counter && d0 + |x| + 391 <= dst.Length
    modifies dst, table.offset, table.counter
    ensures dst[..d0] == old(dst[..d0])
    ensures r == 0 <==> Incompressible(x)
    ensures r != 0 ==> Compressed(x, dst[..], d0, r, ts)
  {
    hide Written, Starts, Table.Valid, Compact, Bytes, Describes, Total, Stream, Flags, Encodable, Word, Compressed,
         Bounded, Ready, Greedy, GivesUp;
    var ok, src, cwp, d, cw, done, cur := MainLoop(x, dst, d0, table);
    if !ok {
      assert Incompressible(x);
      return 0, [];
    }
    MainBound(x, dst[..], d0, src, cwp, d, cw, done, cur);
    Sizes(x, dst[..], d0, src, cwp, d, cw, done, cur);
    ghost var dm, from := d, src;
    cwp, d, cw, done, cur := TailLoop(x, dst, d0, table, src, cwp, d, cw, done, cur);
    ghost var D := dst[..];
    Sizes(x, D, d0, |x|, cwp, d, cw, done, cur);
    var word := FinishWord(cw, cur) by { WordOf(x, D, d0, |x|, cwp, d, cw, done, cur); }
    FastWrite(word, dst, cwp, 4);
    StreamWritten(x, D, dst[..], d0, cwp, d, cw, done, cur);
    TailBound(|x|, from, dm - d0, d - d0);
    ts := done + cur;
    r := if d - d0 < 9 then 9 else d - d0;
    ReadyGreedy(x, D, d0, cwp, d, cw, done, cur);
    WholeStream(x, dst[..], d0, d, r, ts);
  }

  lemma ReadyGreedy(x: seq<int>, D: seq<int>, d0: nat, cwp: nat, d: nat, cw: nat, done: seq<Token>, cur: seq<Token>)
    requires Ready(x, done, cur) && Written(x, D, d0, |x|, cwp, d, cw, done, cur)
    ensures IsBytes(x) && Greedy(x, done + cur) && !Incompressible(x)
  {
    hide Greedy, NeverGaveUp, Incompressible, Describes, Total, Emitting, Encodable;
    NotIncompressible(x, done + cur);
  }

  /** At most ten bytes and one control word come after the main loop. */
  lemma TailBound(n: nat, src: nat, m: int, m': int)
    requires src <= n <= src + 10 && m' <= m + (n - src) + 4 && 0 <= m'
    requires m <= src + 4 || 62 * (m - 97) <= 35 * n
    ensures Bounded(n, m')
  {
  }

  lemma WholeStream(x: seq<int>, D: seq<int>, d0: nat, d: nat, r: nat, ts: seq<Token>)
    requires IsBytes(x) && Greedy(x, ts) && Describes(x, ts) && Total(ts) == |x| && AllEncodable(ts) && ts != []
    requires d0 <= d <= |D| && |Stream(ts)| == d - d0 && D[d0..d] == Stream(ts) && Bounded(|x|, d - d0)
    requires r == if d - d0 < 9 then 9 else d - d0
    ensures Compressed(x, D, d0, r, ts)
  {
    hide Greedy, Describes, Total, Stream, Encodable;
  }

  lemma WordOf(x: seq<int>, D: seq<int>, d0: nat, src: nat, cwp: nat, d: nat, cw: nat, done: seq<Token>,
               cur: seq<Token>)
    requires Written(x, D, d0, src, cwp, d, cw, done, cur)
    ensures Word(cw, cur)
  {
  }

  lemma StreamWritten(x: seq<int>, D: seq<int>, D': seq<int>, d0: nat, cwp: nat, d: nat, cw: nat, done: seq<Token>,
                      cur: seq<Token>)
    requires Written(x, D, d0, |x|, cwp, d, cw, done, cur) && cur != []
    requires D' == D[..cwp] + Bytes(Flags(cur) + W / 2, 4) + D[cwp + 4..]
    ensures IsBytes(x) && Describes(x, done + cur) && Total(done + cur) == |x| && AllEncodable(done + cur)
    ensures d0 <= cwp <= d <= |D| == |D'| && D'[..d0] == D[..d0]
    ensures |Stream(done + cur)| == d - d0 && D'[d0..d] == Stream(done + cur)
  {
    hide Stream, Bytes, Describes, Total, Flags, Encodable;
    EmitEnd(D, D', d0, cwp, d, cw, done, cur);
    assert |D'[d0..d]| == d - d0;
  }
}
