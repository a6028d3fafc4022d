/** Which tokens the level-2 compressor chooses, and when it gives up (lzip/quicklz.c:196-424). */
module QlzGreedy {
  import opened QlzTokens
  import opened QlzEmit

  // ---------------------------------------------------------------- the choice of one token

  /**
   * Slot k of the bucket of the bytes at p repeats n of them. A slot counts while its number is below the bucket's
   * counter, an unsigned char that wraps around.
   */
  ghost predicate Offers(x: seq<int>, starts: seq<nat>, p: nat, k: nat, n: nat)
    requires IsBytes(x) && InText(x, starts) && p + 2 < |x|
  {
    var b := Bucket(x, starts, HashAt(x, p));
    k < POINTERS && k < |b| && k < |b| % 256 && 3 <= n && Repeats(x, b[Latest(|b|, k)], p, n)
  }

  /** How far a match at p may go: 255 bytes, and not into the last four. */
  function Reach(x: seq<int>, p: nat): nat
    requires p + 4 <= |x|
  {
    if |x| - 4 - p > 255 then 255 else |x| - 4 - p
  }

  /**
   * A literal only where no slot offers three bytes; else the longest match on offer, in the first slot that has it.
   */
  ghost predicate Chosen(x: seq<int>, starts: seq<nat>, p: nat, t: Token)
    requires IsBytes(x) && InText(x, starts) && p + 4 <= |x|
  {
    match t
    case Literal(b) => p < |x| && b == x[p] && forall k :: k >= 0 ==> !Offers(x, starts, p, k, 3)
    case Match(h, s, len) =>
      && h == HashAt(x, p) && len <= Reach(x, p) && Offers(x, starts, p, s, len)
      && (forall k, n | 0 <= k && 0 <= n <= Reach(x, p) && Offers(x, starts, p, k, n) :: n <= len)
      && forall k | 0 <= k < s :: !Offers(x, starts, p, k, len)
  }

  lemma ChosenFits(x: seq<int>, starts: seq<nat>, p: nat, t: Token)
    requires IsBytes(x) && InText(x, starts) && p + 4 <= |x| && Chosen(x, starts, p, t)
    ensures Fits(x, starts, p, t)
  {
    hide Repeats, Latest, HashAt, Bucket;
  }

  lemma RepeatsStart(x: seq<int>, from: int, p: int, n: nat)
    requires Repeats(x, from, p, n) && 3 <= n
    ensures Repeats(x, from, p, 3)
  {
    assert x[from..from + n][..3] == x[from..from + 3] && x[p..p + n][..3] == x[p..p + 3];
  }

  lemma OffersThree(x: seq<int>, starts: seq<nat>, p: nat, k: nat, n: nat)
    requires IsBytes(x) && InText(x, starts) && p + 2 < |x| && Offers(x, starts, p, k, n)
    ensures Offers(x, starts, p, k, 3)
  {
    hide Repeats, Latest, HashAt, Bucket;
    var b := Bucket(x, starts, HashAt(x, p));
    RepeatsStart(x, b[Latest(|b|, k)], p, n);
  }

  /** There is only one choice. */
  lemma ChosenUnique(x: seq<int>, starts: seq<nat>, p: nat, t: Token, u: Token)
    requires IsBytes(x) && InText(x, starts) && p + 4 <= |x| && Chosen(x, starts, p, t) && Chosen(x, starts, p, u)
    ensures t == u
  {
    hide Offers, HashAt;
    if t.Match? && u.Literal? {
      MatchLong(x, starts, p, t);
      OffersThree(x, starts, p, t.slot, t.len);
    } else if t.Literal? && u.Match? {
      MatchLong(x, starts, p, u);
      OffersThree(x, starts, p, u.slot, u.len);
    } else if t.Match? {
      assert t.len == u.len;
      assert t.slot == u.slot by {
        if t.slot < u.slot {
          assert false;
        }
      }
    }
  }

  lemma MatchLong(x: seq<int>, starts: seq<nat>, p: nat, t: Token)
    requires IsBytes(x) && InText(x, starts) && p + 4 <= |x| && Chosen(x, starts, p, t) && t.Match?
    ensures 3 <= t.len
  {
  }

  // ---------------------------------------------------------------- the whole sequence

  /** Chosen tokens while at least eleven bytes are left, literals after that. */
  ghost predicate Greedy(x: seq<int>, ts: seq<Token>)
    requires IsBytes(x)
    decreases |ts|
  {
    ts != [] ==>
      var front := ts[..|ts| - 1];
      Greedy(x, front) && Next(x, Starts(x, front), Total(front), ts[|ts| - 1])
  }

  ghost predicate Next(x: seq<int>, starts: seq<nat>, p: nat, t: Token)
    requires IsBytes(x) && InText(x, starts)
  {
    if p + 11 <= |x| then Chosen(x, starts, p, t) else p < |x| && t == Literal(x[p])
  }

  lemma GreedyAppend(x: seq<int>, ts: seq<Token>, t: Token)
    requires IsBytes(x) && Greedy(x, ts) && Next(x, Starts(x, ts), Total(ts), t)
    ensures Greedy(x, ts + [t])
  {
    assert (ts + [t])[..|ts|] == ts;
  }

  /** Such tokens describe the text. */
  lemma {:induction false} GreedyDescribes(x: seq<int>, ts: seq<Token>)
    requires IsBytes(x) && Greedy(x, ts)
    ensures Describes(x, ts)
    decreases |ts|
  {
    hide Chosen, Starts, Total, Fits;
    if ts != [] {
      var front, t := ts[..|ts| - 1], ts[|ts| - 1];
      GreedyDescribes(x, front);
      if Total(front) + 11 <= |x| {
        ChosenFits(x, Starts(x, front), Total(front), t);
      } else {
        LastLiteral(x, Starts(x, front), Total(front));
      }
    }
  }

  lemma LastLiteral(x: seq<int>, starts: seq<nat>, p: nat)
    requires IsBytes(x) && InText(x, starts) && p < |x|
    ensures Fits(x, starts, p, Literal(x[p]))
  {
  }

  /** Every step is determined, so of two such sequences one continues the other. */
  lemma {:induction false} GreedyUnique(x: seq<int>, ts: seq<Token>, us: seq<Token>)
    requires IsBytes(x) && Greedy(x, ts) && Greedy(x, us) && |ts| <= |us|
    ensures ts == us[..|ts|]
    decreases |us|
  {
    hide Chosen, Starts, Total;
    if |ts| < |us| {
      var front := us[..|us| - 1];
      GreedyUnique(x, ts, front);
      assert front[..|ts|] == us[..|ts|];
    } else if ts != [] {
      var front := ts[..|ts| - 1];
      GreedyUnique(x, front, us[..|us| - 1]);
      assert front == us[..|us| - 1];
      if Total(front) + 11 <= |x| {
        ChosenUnique(x, Starts(x, front), Total(front), ts[|ts| - 1], us[|us| - 1]);
      }
      assert ts == front + [ts[|ts| - 1]] && us == front + [us[|us| - 1]];
    }
  }

  // ---------------------------------------------------------------- giving up

  /**
   * A control word falls due in the main part and past the middle of the source, and what has been written exceeds what
   * has been consumed less a 32nd of it.
   */
  ghost predicate GivesUp(x: seq<int>, ts: seq<Token>) {
    && ts != [] && |ts| % 31 == 0 && Total(ts) + 11 <= |x| && Total(ts) > |x| / 2
    && |FullGroups(ts)| > Total(ts) - Total(ts) / 32
  }

  ghost predicate Incompressible(x: seq<int>)
    requires IsBytes(x)
  {
    exists ts :: Greedy(x, ts) && GivesUp(x, ts)
  }

  ghost predicate NeverGaveUp(x: seq<int>, ts: seq<Token>) {
    forall n | 0 <= n <= |ts| :: !GivesUp(x, ts[..n])
  }

  /** The same before the last token. */
  ghost predicate NotYet(x: seq<int>, ts: seq<Token>) {
    forall n | 0 <= n < |ts| :: !GivesUp(x, ts[..n])
  }

  lemma NotNow(x: seq<int>, ts: seq<Token>)
    requires NotYet(x, ts) && !GivesUp(x, ts)
    ensures NeverGaveUp(x, ts)
  {
    hide GivesUp;
    assert ts[..|ts|] == ts;
  }

  lemma NotBefore(x: seq<int>, ts: seq<Token>, t: Token)
    requires NeverGaveUp(x, ts)
    ensures NotYet(x, ts + [t])
  {
    hide GivesUp;
    forall n | 0 <= n < |ts| + 1
      ensures !GivesUp(x, (ts + [t])[..n])
    {
      assert (ts + [t])[..n] == ts[..n];
    }
  }

  /** A whole greedy sequence that never met the rule shows that none does. */
  lemma NotIncompressible(x: seq<int>, ts: seq<Token>)
    requires IsBytes(x) && Greedy(x, ts) && Total(ts) == |x| && NeverGaveUp(x, ts)
    ensures !Incompressible(x)
  {
    hide Greedy, FullGroups;
    forall us | Greedy(x, us)
      ensures !GivesUp(x, us)
    {
      if |us| <= |ts| {
        GreedyUnique(x, us, ts);
        assert us == ts[..|us|];
      } else {
        GreedyUnique(x, ts, us);
        TotalGrows(us, |ts|);
      }
    }
  }

  lemma {:induction false} TotalGrows(us: seq<Token>, n: nat)
    requires n <= |us|
    ensures Total(us[..n]) <= Total(us)
    decreases |us|
  {
    if n < |us| {
      TotalGrows(us[..|us| - 1], n);
      assert us[..|us| - 1][..n] == us[..n];
    } else {
      assert us[..n] == us;
    }
  }
}
