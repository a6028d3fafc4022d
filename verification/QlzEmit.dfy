/** The output side of the compressor: control words filled in behind the tokens they describe (lzip/quicklz.c). */
module QlzEmit {
  import opened Bits
  import opened QlzTokens
  import opened QlzFormat

  /** Groups of exactly 31 tokens. */
  function FullGroups(ts: seq<Token>): seq<int>
    decreases |ts|
  {
    if |ts| < 31 then [] else FullGroups(ts[..|ts| - 31]) + Group(ts[|ts| - 31..])
  }

  lemma FullAppend(done: seq<Token>, g: seq<Token>)
    requires |g| == 31
    ensures FullGroups(done + g) == FullGroups(done) + Group(g)
  {
    hide Group;
    assert (done + g)[..|done|] == done && (done + g)[|done|..] == g;
  }

  lemma {:induction false} FullFront(g: seq<Token>, done: seq<Token>)
    requires |g| == 31 && |done| % 31 == 0
    ensures FullGroups(g + done) == Group(g) + FullGroups(done)
    decreases |done|
  {
    hide Group, FullGroups;
    NoGroups();
    if done == [] {
      assert g + done == [] + g;
      FullAppend([], g);
    } else {
      LastGroup(done);
      var front, last := done[..|done| - 31], done[|done| - 31..];
      FullFront(g, front);
      FullAppend(g + front, last);
      assert g + done == (g + front) + last;
    }
  }

  lemma NoGroups()
    ensures FullGroups([]) == []
  {
  }

  lemma LastGroup(ts: seq<Token>)
    requires |ts| >= 31
    ensures FullGroups(ts) == FullGroups(ts[..|ts| - 31]) + Group(ts[|ts| - 31..])
  {
    hide Group;
  }

  /** Full groups and then a last one make up the stream. */
  lemma {:induction false} StreamIs(done: seq<Token>, cur: seq<Token>)
    requires |done| % 31 == 0 && |cur| <= 31 && (done == [] || cur != [])
    ensures Stream(done + cur) == FullGroups(done) + Group(cur)
    decreases |done|
  {
    hide Group, FullGroups, Stream;
    NoGroups();
    if done == [] {
      assert done + cur == cur;
      StreamShort(cur);
    } else {
      var g, rest := done[..31], done[31..];
      StreamIs(rest, cur);
      FullFront(g, rest);
      assert done == g + rest && done + cur == g + (rest + cur);
      StreamLong(g, rest + cur);
      assert (Group(g) + FullGroups(rest)) + Group(cur) == Group(g) + (FullGroups(rest) + Group(cur));
    }
  }

  lemma StreamShort(ts: seq<Token>)
    requires |ts| <= 31
    ensures Stream(ts) == Group(ts)
  {
    hide Group;
  }

  lemma StreamLong(g: seq<Token>, rest: seq<Token>)
    requires |g| == 31 && rest != []
    ensures Stream(g + rest) == Group(g) + Stream(rest)
  {
    hide Group;
    assert (g + rest)[..31] == g && (g + rest)[31..] == rest;
  }

  lemma {:induction false} PayloadShort(ts: seq<Token>)
    requires AllEncodable(ts)
    ensures |Payload(ts)| <= Total(ts) && |Payload(ts)| <= 3 * |ts| && |ts| <= Total(ts)
    decreases |ts|
  {
    if ts != [] {
      PayloadShort(ts[..|ts| - 1]);
      assert Encodable(ts[|ts| - 1]);
    }
  }

  lemma GroupShort(g: seq<Token>)
    requires AllEncodable(g) && |g| == 31
    ensures 31 * |Group(g)| <= 35 * Total(g)
  {
    hide Bytes, Payload, Total;
    PayloadShort(g);
  }

  /** Full groups grow the data by at most four bytes in 31. */
  lemma {:induction false} FullShort(done: seq<Token>)
    requires AllEncodable(done) && |done| % 31 == 0
    ensures 31 * |FullGroups(done)| <= 35 * Total(done)
    decreases |done|
  {
    hide Group, Total, Encodable;
    if |done| >= 31 {
      var front, g := done[..|done| - 31], done[|done| - 31..];
      assert done == front + g;
      EncodableParts(front, g);
      FullShort(front);
      GroupShort(g);
      TotalAppend(front, g);
    }
  }

  lemma {:induction false} FlagsAppend(cur: seq<Token>, t: Token)
    ensures Flags(cur + [t]) == Flags(cur) + (if t.Match? then Pow2(|cur|) else 0)
    decreases |cur|
  {
    if cur == [] {
      assert (cur + [t])[1..] == [];
    } else {
      FlagsAppend(cur[1..], t);
      assert (cur + [t])[1..] == cur[1..] + [t];
    }
  }

  // ---------------------------------------------------------------- the control word being built

  /** cword_val: the flags so far at the top, below them the mark that counts how many are still to come. */
  ghost predicate Word(cw: nat, cur: seq<Token>) {
    |cur| <= 31 && cw == Pow2(31 - |cur|) * (1 + 2 * Flags(cur))
  }

  lemma WordStart()
    ensures Word(W / 2, [])
  {
    Pow2Values();
  }

  lemma WordRange(cw: nat, cur: seq<Token>)
    requires Word(cw, cur)
    ensures 0 < cw < W && (cw % 2 == 1 <==> |cur| == 31)
  {
    hide Pow2, Flags;
    FlagsBound(cur);
    Pow2Add(31 - |cur|, |cur|);
    Pow2Values();
    ProductRange(Pow2(31 - |cur|), Pow2(|cur|), Flags(cur));
    if |cur| < 31 {
      HalfPower(31 - |cur|);
      EvenProduct(Pow2(30 - |cur|), 1 + 2 * Flags(cur));
    } else {
      PowerZero();
    }
  }

  lemma PowerZero()
    ensures Pow2(0) == 1
  {
  }

  lemma ProductRange(p: nat, q: nat, f: nat)
    requires p > 0 && p * q == W / 2 && f < q
    ensures 0 < p * (1 + 2 * f) < W
  {
    MulMono(1 + 2 * f, 2 * q - 1, p);
    TwiceLess(p, q);
    Positive(p, f);
  }

  lemma TwiceLess(p: nat, q: nat)
    requires q > 0
    ensures (2 * q - 1) * p == 2 * (p * q) - p
  {
  }

  lemma Positive(p: nat, f: nat)
    requires p > 0
    ensures p * (1 + 2 * f) > 0
  {
    MulMono(1, 1 + 2 * f, p);
  }

  lemma EvenProduct(h: nat, x: nat)
    ensures ((2 * h) * x) % 2 == 0 && ((2 * h) * x) / 2 == h * x
  {
    assert (2 * h) * x == 2 * (h * x);
  }

  /** cword_val >> 1, and | (1U << 31) for a match (quicklz.c:398, 419). */
  function Shifted(cw: nat, match_: bool): nat {
    Or(if match_ then W / 2 else 0, cw / 2)
  }

  lemma WordStep(cw: nat, cur: seq<Token>, t: Token)
    requires Word(cw, cur) && |cur| < 31
    ensures Word(Shifted(cw, t.Match?), cur + [t])
  {
    hide Pow2, Flags, Or;
    var h, f, p := Pow2(30 - |cur|), Flags(cur), Pow2(|cur|);
    WordRange(cw, cur);
    HalfPower(31 - |cur|);
    EvenProduct(h, 1 + 2 * f);
    FlagsAppend(cur, t);
    TopOr(t.Match?, cw / 2);
    Pow2Add(30 - |cur|, |cur|);
    Pow2Values();
    HalfPower(31);
    NewFlag(h, f, p);
  }

  lemma HalfPower(k: nat)
    requires k > 0
    ensures Pow2(k) == 2 * Pow2(k - 1)
  {
  }

  lemma NewFlag(h: nat, f: nat, p: nat)
    ensures h * (1 + 2 * (f + p)) == h * (1 + 2 * f) + 2 * (h * p)
  {
    assert h * (1 + 2 * (f + p)) == h * (1 + 2 * f) + h * (2 * p);
  }

  lemma TopOr(match_: bool, y: nat)
    requires y < W / 2
    ensures Or(if match_ then W / 2 else 0, y) == y + if match_ then W / 2 else 0
  {
    Pow2Values();
    if match_ {
      MulDivMod(W / 2, W / 2, 1, 0);
      OrDisjoint(W / 2, y, 31, W / 2);
    }
  }

  /** A full control word, as stored. */
  lemma WordFull(cw: nat, cur: seq<Token>)
    requires Word(cw, cur) && |cur| == 31
    ensures Or(W / 2, cw / 2) == Flags(cur) + W / 2
  {
    hide Pow2, Flags, Or;
    PowerZero();
    FlagsBound(cur);
    Pow2Values();
    OddHalf(Flags(cur));
    TopOr(true, Flags(cur));
  }

  lemma OddHalf(f: nat)
    ensures (1 + 2 * f) / 2 == f
  {
  }

  /** quicklz.c:460-463: the mark is shifted down to the bottom first. */
  method FinishWord(cw0: nat, ghost cur: seq<Token>) returns (word: nat)
    requires Word(cw0, cur)
    ensures word == Flags(cur) + W / 2
  {
    var cw := cw0;
    ghost var k: nat := 31 - |cur|;
    WordRange(cw, cur);
    while cw % 2 != 1
      invariant cw == Pow2(k) * (1 + 2 * Flags(cur)) && cw > 0
      decreases k
    {
      NotDone(k, Flags(cur));
      cw := cw / 2;
      k := k - 1;
    }
    MarkAtBottom(cw, k, Flags(cur));
    FlagsBound(cur);
    Pow2Monotone(|cur|, 31);
    Pow2Values();
    TopOr(true, Flags(cur));
    word := Or(W / 2, cw / 2);
  }

  lemma NotDone(k: nat, f: nat)
    requires (Pow2(k) * (1 + 2 * f)) % 2 != 1
    ensures k > 0 && (Pow2(k) * (1 + 2 * f)) / 2 == Pow2(k - 1) * (1 + 2 * f) && Pow2(k - 1) * (1 + 2 * f) > 0
  {
    if k > 0 {
      EvenProduct(Pow2(k - 1), 1 + 2 * f);
      Positive(Pow2(k - 1), f);
    }
  }

  lemma MarkAtBottom(cw: nat, k: nat, f: nat)
    requires cw == Pow2(k) * (1 + 2 * f) && cw % 2 == 1
    ensures cw / 2 == f
  {
    if k > 0 {
      EvenProduct(Pow2(k - 1), 1 + 2 * f);
    }
  }

  // ---------------------------------------------------------------- the destination

  /** From d0 on: the full groups, a gap for the control word at cwp, the payload of the current group up to d. */
  ghost predicate Emitting(D: seq<int>, d0: nat, cwp: nat, d: nat, cw: nat, done: seq<Token>, cur: seq<Token>) {
    && d0 <= cwp && cwp + 4 <= d <= |D| && |done| % 31 == 0 && Word(cw, cur)
    && D[d0..cwp] == FullGroups(done) && D[cwp + 4..d] == Payload(cur)
  }

  lemma EmitStart(D: seq<int>, d0: nat)
    requires d0 + 4 <= |D|
    ensures Emitting(D, d0, d0, d0 + 4, W / 2, [], [])
  {
    WordStart();
  }

  lemma EmitToken(D: seq<int>, D': seq<int>, d0: nat, cwp: nat, d: nat, cw: nat, done: seq<Token>, cur: seq<Token>,
                  t: Token)
    requires Emitting(D, d0, cwp, d, cw, done, cur) && |cur| < 31 && d + |TokenBytes(t)| <= |D|
    requires D' == D[..d] + TokenBytes(t) + D[d + |TokenBytes(t)|..]
    ensures Emitting(D', d0, cwp, d + |TokenBytes(t)|, Shifted(cw, t.Match?), done, cur + [t])
  {
    hide FullGroups, Word, Payload, TokenBytes;
    WordStep(cw, cur, t);
    LastPayload(cur, t);
    assert D'[d0..cwp] == D[d0..cwp];
    assert D'[cwp + 4..d + |TokenBytes(t)|] == D[cwp + 4..d] + TokenBytes(t);
  }

  /** A full group is closed and the gap for the next control word left, quicklz.c:207-211. */
  lemma EmitFlush(D: seq<int>, D': seq<int>, d0: nat, cwp: nat, d: nat, cw: nat, done: seq<Token>, cur: seq<Token>)
    requires Emitting(D, d0, cwp, d, cw, done, cur) && |cur| == 31 && d + 4 <= |D|
    requires D' == D[..cwp] + Bytes(Or(W / 2, cw / 2), 4) + D[cwp + 4..]
    ensures Emitting(D', d0, d, d + 4, W / 2, done + cur, [])
  {
    hide FullGroups, Payload, Bytes, Flags, Or, Word;
    WordFull(cw, cur);
    WordStart();
    FullAppend(done, cur);
    Patched(D, D', d0, cwp, d, Bytes(Flags(cur) + W / 2, 4));
    EmptyPayload(D', d + 4);
    assert |done + cur| % 31 == 0;
  }

  lemma Patched(D: seq<int>, D': seq<int>, d0: nat, cwp: nat, d: nat, w: seq<int>)
    requires d0 <= cwp && cwp + 4 <= d <= |D| && |w| == 4 && D' == D[..cwp] + w + D[cwp + 4..]
    ensures |D'| == |D| && D'[d0..d] == D[d0..cwp] + (w + D[cwp + 4..d])
  {
    assert D'[d0..cwp] == D[d0..cwp] && D'[cwp..cwp + 4] == w && D'[cwp + 4..d] == D[cwp + 4..d];
    assert D'[d0..d] == D'[d0..cwp] + (D'[cwp..cwp + 4] + D'[cwp + 4..d]);
  }

  lemma EmptyPayload(D: seq<int>, d: nat)
    requires d <= |D|
    ensures D[d..d] == Payload([])
  {
  }

  lemma EmitEnd(D: seq<int>, D': seq<int>, d0: nat, cwp: nat, d: nat, cw: nat, done: seq<Token>, cur: seq<Token>)
    requires Emitting(D, d0, cwp, d, cw, done, cur) && (done == [] || cur != [])
    requires D' == D[..cwp] + Bytes(Flags(cur) + W / 2, 4) + D[cwp + 4..]
    ensures D'[d0..d] == Stream(done + cur)
  {
    hide FullGroups, Payload, Bytes, Flags, Stream, Pow2;
    StreamIs(done, cur);
    Patched(D, D', d0, cwp, d, Bytes(Flags(cur) + W / 2, 4));
  }
}
