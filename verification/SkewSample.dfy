/** The first half of the skew algorithm: sorting and naming the triples at positions 1 and 2 mod 3. */
module SkewSample {
  import opened Perm
  import opened SuffixOrder
  import RadixPass

  ghost function At(t: seq<int>, i: int): int {
    if 0 <= i < |t| then t[i] else 0
  }

  // The orders the three passes establish in turn, among different positions.
  ghost predicate ThirdLeq(t: seq<int>, x: int, y: int) {
    x != y && At(t, x + 2) <= At(t, y + 2)
  }

  ghost predicate SecondLeq(t: seq<int>, x: int, y: int) {
    x != y && LeqPair(At(t, x + 1), At(t, x + 2), At(t, y + 1), At(t, y + 2))
  }

  ghost predicate FirstLeq(t: seq<int>, x: int, y: int) {
    x != y && LeqTriple(At(t, x), At(t, x + 1), At(t, x + 2), At(t, y), At(t, y + 1), At(t, y + 2))
  }

  ghost function ByThird(t: seq<int>): (int, int) -> bool {
    (x, y) => ThirdLeq(t, x, y)
  }

  ghost function BySecond(t: seq<int>): (int, int) -> bool {
    (x, y) => SecondLeq(t, x, y)
  }

  ghost function ByTriple(t: seq<int>): (int, int) -> bool {
    (x, y) => FirstLeq(t, x, y)
  }

  ghost function Different(): (int, int) -> bool {
    (x, y) => x != y
  }

  ghost predicate AllSampled(p: seq<int>, n: nat) {
    forall k | 0 <= k < |p| :: Sampled(n, p[k])
  }

  /** ssort.cc:36 */
  method Positions(s12: array<int>, n: nat)
    requires n >= 2 && s12.Length == N02(n) + 3
    modifies s12
    ensures AllSampled(s12[..N02(n)], n) && RadixPass.Pairwise(s12[..N02(n)], Different())
    ensures s12[N02(n)..] == old(s12[N02(n)..])
  {
    hide Sampled, AllSampled, RadixPass.Pairwise;
    var j := 0;
    for i := 0 to n + (N0(n) - N1(n))
      invariant j == i - (i + 2) / 3
      invariant forall k | 0 <= k < j :: s12[k] == k + k / 2 + 1
      invariant s12[N02(n)..] == old(s12[N02(n)..])
    {
      if i % 3 != 0 {
        s12[j] := i;
        j := j + 1;
      }
    }
    PositionsSampled(s12[..N02(n)], n);
  }

  lemma PositionsSampled(p: seq<int>, n: nat)
    requires n >= 2 && |p| == N02(n) && forall k | 0 <= k < |p| :: p[k] == k + k / 2 + 1
    ensures AllSampled(p, n) && RadixPass.Pairwise(p, Different())
  {
  }

  lemma KeyedSample(t: seq<int>, n: nat, K: int, p: seq<int>, off: nat)
    requires Text(t, n, K) && K >= 0 && AllSampled(p, n) && off <= 2
    ensures RadixPass.Keyed(p, t[off..], K)
  {
    forall i | 0 <= i < |p|
      ensures 0 <= p[i] < |t[off..]| && 0 <= t[off..][p[i]] <= K
    {
      assert Sampled(n, p[i]);
      assert t[off..][p[i]] == t[off + p[i]];
    }
  }

  lemma SampledAgain(p: seq<int>, p': seq<int>, n: nat)
    requires AllSampled(p, n) && multiset(p') == multiset(p)
    ensures AllSampled(p', n)
  {
    forall k | 0 <= k < |p'|
      ensures Sampled(n, p'[k])
    {
      assert p'[k] in multiset(p');
      assert p'[k] in p;
    }
  }

  /** Q is the symbol at offset off first, then P. */
  ghost predicate Refines(t: seq<int>, off: nat, P: (int, int) -> bool, Q: (int, int) -> bool) {
    forall x, y | At(t, off + x) < At(t, off + y) || (At(t, off + x) == At(t, off + y) && P(x, y)) :: Q(x, y)
  }

  /** One of the three passes: the positions stay sampled and P is refined to Q. */
  method SamplePass(s: array<int>, from: array<int>, into: array<int>, off: nat, n: nat, K: nat,
                    ghost P: (int, int) -> bool, ghost Q: (int, int) -> bool)
    requires into != s && into != from && off <= 2
    requires from.Length == into.Length == N02(n) + 3
    requires Text(s[..], n, K) && AllSampled(from[..N02(n)], n)
    requires RadixPass.Pairwise(from[..N02(n)], P)
    requires Refines(s[..], off, P, Q)
    modifies into
    ensures AllSampled(into[..N02(n)], n)
    ensures RadixPass.Pairwise(into[..N02(n)], Q)
    ensures into[N02(n)..] == old(into[N02(n)..])
  {
    ghost var a, key := from[..N02(n)], s[off..];
    KeyedSample(s[..], n, K, a, off);
    assert s[..][off..] == key;
    forall x, y | x in a && y in a && (key[x] < key[y] || (key[x] == key[y] && P(x, y)))
      ensures Q(x, y)
    {
      assert key[x] == At(s[..], off + x) && key[y] == At(s[..], off + y);
    }
    RadixPass.StableOrder(a, key, K, P, Q);
    RadixPass.StablePermutation(a, key, K);
    SampledAgain(a, RadixPass.StableByKey(a, key, K), n);
    RadixPass.Sort(from, into, s, off, N02(n), K);
  }

  /** Each pass refines the order of the one before. */
  lemma PassOrders(t: seq<int>)
    ensures Refines(t, 2, Different(), ByThird(t))
    ensures Refines(t, 1, ByThird(t), BySecond(t))
    ensures Refines(t, 0, BySecond(t), ByTriple(t))
  {
  }

  /** ssort.cc:39-41 */
  method SortTriples(s: array<int>, s12: array<int>, SA12: array<int>, n: nat, K: nat)
    requires s12 != s && SA12 != s && s12 != SA12
    requires s12.Length == SA12.Length == N02(n) + 3
    requires Text(s[..], n, K) && AllSampled(s12[..N02(n)], n) && RadixPass.Pairwise(s12[..N02(n)], Different())
    modifies s12, SA12
    ensures AllSampled(SA12[..N02(n)], n)
    ensures RadixPass.Pairwise(SA12[..N02(n)], ByTriple(s[..]))
    ensures s12[N02(n)..] == old(s12[N02(n)..]) && SA12[N02(n)..] == old(SA12[N02(n)..])
  {
    hide Refines, Different, ByThird, BySecond, ByTriple, RadixPass.Pairwise, AllSampled, Text, N02;
    ghost var t := s[..];
    PassOrders(t);
    SamplePass(s, s12, SA12, 2, n, K, Different(), ByThird(t));
    SamplePass(s, SA12, s12, 1, n, K, ByThird(t), BySecond(t));
    SamplePass(s, s12, SA12, 0, n, K, BySecond(t), ByTriple(t));
  }

  // ---------------------------------------------------------------- naming

  /** p lists every sampled position once, by triple. */
  ghost predicate SortedSample(t: seq<int>, n: nat, K: int, p: seq<int>) {
    && Text(t, n, K) && |p| == N02(n) && AllSampled(p, n)
    && forall u, v | 0 <= u < v < |p| :: p[u] != p[v] && !TripleLess(t, p[v], p[u])
  }

  lemma NotTripleLess(t: seq<int>, x: nat, y: nat)
    requires x + 2 < |t| && y + 2 < |t| && ByTriple(t)(x, y)
    ensures x != y && !TripleLess(t, y, x)
  {
  }

  lemma SortedSampleFrom(t: seq<int>, n: nat, K: int, p: seq<int>)
    requires Text(t, n, K) && |p| == N02(n) && AllSampled(p, n) && RadixPass.Pairwise(p, ByTriple(t))
    ensures SortedSample(t, n, K, p)
  {
    forall u, v | 0 <= u < v < |p|
      ensures p[u] != p[v] && !TripleLess(t, p[v], p[u])
    {
      assert Sampled(n, p[u]) && Sampled(n, p[v]) && ByTriple(t)(p[u], p[v]);
      NotTripleLess(t, p[u], p[v]);
    }
  }

  ghost function Slots(n: nat, p: seq<int>): (r: seq<int>)
    requires AllSampled(p, n)
    ensures |r| == |p| && forall u | 0 <= u < |p| :: r[u] == Slot(n, p[u])
  {
    seq(|p|, u requires 0 <= u < |p| => assert Sampled(n, p[u]); Slot(n, p[u]))
  }

  /** The slots of the sorted sample are a permutation of 0 .. n02-1. */
  lemma SlotsPermute(t: seq<int>, n: nat, K: int, p: seq<int>)
    requires SortedSample(t, n, K, p)
    ensures Distinct(Slots(n, p)) && Within(Slots(n, p), N02(n)) && Covers(Slots(n, p), N02(n))
  {
    var r := Slots(n, p);
    forall u, v | 0 <= u < v < |r|
      ensures r[u] != r[v]
    {
      assert Sampled(n, p[u]) && Sampled(n, p[v]);
      PosSlot(n, p[u]);
      PosSlot(n, p[v]);
    }
    forall u | 0 <= u < |r|
      ensures 0 <= r[u] < N02(n)
    {
      assert Sampled(n, p[u]);
      PosSlot(n, p[u]);
    }
    Pigeonhole(r, N02(n));
  }

  lemma SampleInText(t: seq<int>, n: nat, K: int, p: seq<int>)
    requires SortedSample(t, n, K, p)
    ensures InText(t, p) && Sorted(t, p)
  {
    forall u | 0 <= u < |p|
      ensures 0 <= p[u] && p[u] + 2 < |t|
    {
      assert Sampled(n, p[u]);
    }
  }

  ghost predicate InText(t: seq<int>, p: seq<int>) {
    forall u | 0 <= u < |p| :: 0 <= p[u] && p[u] + 2 < |t|
  }

  ghost predicate Sorted(t: seq<int>, p: seq<int>)
    requires InText(t, p)
  {
    forall u, v | 0 <= u < v < |p| :: !TripleLess(t, p[v], p[u])
  }

  ghost predicate InOrder(t: seq<int>, p: seq<int>, r: seq<int>, R: seq<int>, u: nat, v: nat)
    requires InText(t, p) && u < |p| && v < |p| && |r| == |p| && Within(r, |R|)
  {
    && R[r[u]] <= R[r[v]]
    && (R[r[u]] == R[r[v]] <==> TripleEq(t, p[u], p[v]))
  }

  /** After the first i positions: their slots r hold names in 1..name that respect the triples' order. */
  ghost predicate Named(t: seq<int>, p: seq<int>, r: seq<int>, R: seq<int>, i: nat, name: nat)
    requires InText(t, p) && |r| == |p| && Within(r, |R|) && i <= |p|
  {
    && name <= i && (i > 0 ==> R[r[i - 1]] == name)
    && (forall u | 0 <= u < i :: 1 <= R[r[u]] <= name)
    && (forall u, v | 0 <= u < v < i :: InOrder(t, p, r, R, u, v))
    && (name == i ==> forall u | 0 <= u < i :: R[r[u]] == u + 1)
  }

  lemma TripleChain(t: seq<int>, x: nat, y: nat, z: nat)
    requires x + 2 < |t| && y + 2 < |t| && z + 2 < |t|
    requires !TripleLess(t, y, x) && !TripleLess(t, z, y)
    ensures TripleEq(t, x, z) <==> TripleEq(t, x, y) && TripleEq(t, y, z)
  {
  }

  lemma NamedStep(t: seq<int>, p: seq<int>, r: seq<int>, R: seq<int>, i: nat, name: nat, name': nat)
    requires InText(t, p) && Sorted(t, p) && |r| == |p| && Within(r, |R|) && Distinct(r) && i < |p|
    requires Named(t, p, r, R, i, name)
    requires i == 0 ==> name' == 1
    requires i > 0 ==> name' == if TripleEq(t, p[i - 1], p[i]) then name else name + 1
    ensures Named(t, p, r, R[r[i] := name'], i + 1, name')
  {
    var R' := R[r[i] := name'];
    assert forall u | 0 <= u < i :: R'[r[u]] == R[r[u]];
    forall u, v | 0 <= u < v < i + 1
      ensures InOrder(t, p, r, R', u, v)
    {
      if v < i {
        assert InOrder(t, p, r, R, u, v);
      } else if u < i - 1 {
        assert InOrder(t, p, r, R, u, i - 1);
        TripleChain(t, p[u], p[i - 1], p[i]);
      }
    }
  }

  /** (c0, c1, c2) is the triple named last, or no triple at all. */
  ghost predicate LastTriple(t: seq<int>, p: seq<int>, i: nat, c0: int, c1: int, c2: int)
    requires InText(t, p) && i <= |p|
  {
    if i == 0 then c0 == -1
    else c0 == t[p[i - 1]] && c1 == t[p[i - 1] + 1] && c2 == t[p[i - 1] + 2]
  }

  lemma NameChoice(t: seq<int>, p: seq<int>, i: nat, c0: int, c1: int, c2: int)
    requires InText(t, p) && i < |p| && LastTriple(t, p, i, c0, c1, c2) && t[p[i]] >= 0
    ensures LastTriple(t, p, i + 1, t[p[i]], t[p[i] + 1], t[p[i] + 2])
    ensures var same := t[p[i]] == c0 && t[p[i] + 1] == c1 && t[p[i] + 2] == c2;
            && (i == 0 ==> !same)
            && (i > 0 ==> (same <==> TripleEq(t, p[i - 1], p[i])))
  {
  }

  /** ssort.cc:46-48: a triple unlike the last one takes the next name. */
  method NextName(s: array<int>, x: nat, name: nat, c0: int, c1: int, c2: int)
    returns (name': nat, d0: int, d1: int, d2: int)
    requires x + 2 < s.Length
    ensures d0 == s[x] && d1 == s[x + 1] && d2 == s[x + 2]
    ensures name' == if s[x] == c0 && s[x + 1] == c1 && s[x + 2] == c2 then name else name + 1
  {
    name', d0, d1, d2 := name, c0, c1, c2;
    if s[x] != c0 || s[x + 1] != c1 || s[x + 2] != c2 {
      name' := name + 1;
      d0 := s[x];
      d1 := s[x + 1];
      d2 := s[x + 2];
    }
  }

  /** ssort.cc:49-50 */
  method StoreName(s12: array<int>, n: nat, x: nat, name: int)
    requires Sampled(n, x) && s12.Length == N02(n) + 3
    modifies s12
    ensures Slot(n, x) < N02(n) && s12[..] == old(s12[..])[Slot(n, x) := name]
  {
    PosSlot(n, x);
    if x % 3 == 1 {
      s12[x / 3] := name;
    } else {
      s12[x / 3 + N0(n)] := name;
    }
  }

  lemma NamingStart(t: seq<int>, n: nat, K: int, p: seq<int>, R: seq<int>)
    requires SortedSample(t, n, K, p) && |R| >= N02(n)
    ensures InText(t, p) && Sorted(t, p)
    ensures forall u | 0 <= u < |p| :: Sampled(n, p[u]) && t[p[u]] >= 0 && p[u] + 2 < |t|
    ensures Distinct(Slots(n, p)) && Within(Slots(n, p), |R|)
    ensures Named(t, p, Slots(n, p), R, 0, 0) && LastTriple(t, p, 0, -1, -1, -1)
  {
    SlotsPermute(t, n, K, p);
    SampleInText(t, n, K, p);
  }

  lemma TailKept(R: seq<int>, q: nat, v: int, m: nat)
    requires q < m <= |R|
    ensures R[q := v][m..] == R[m..]
  {
  }

  /** ssort.cc:44-51. The reduced string R = s12[..n02] names the triples. */
  method NameTriples(s: array<int>, SA12: array<int>, s12: array<int>, n: nat, ghost K: nat) returns (name: nat)
    requires s12 != s && s12 != SA12 && n >= 2
    requires s12.Length == SA12.Length == N02(n) + 3
    requires SortedSample(s[..], n, K, SA12[..N02(n)])
    modifies s12
    ensures s12[N02(n)..] == old(s12[N02(n)..])
    ensures InText(s[..], SA12[..N02(n)]) && Within(Slots(n, SA12[..N02(n)]), s12.Length)
    ensures Named(s[..], SA12[..N02(n)], Slots(n, SA12[..N02(n)]), s12[..], N02(n), name)
  {
    hide Named, LastTriple, Sorted, Text, Slots, TripleEq, Slot, Sampled, InText, Within, Distinct, N02;
    ghost var t, p, R := s[..], SA12[..N02(n)], s12[..];
    ghost var r := Slots(n, p);
    NamingStart(t, n, K, p, R);
    name := 0;
    var c0, c1, c2 := -1, -1, -1;
    for i := 0 to N02(n)
      invariant s12[..] == R && |R| == N02(n) + 3 && R[N02(n)..] == old(s12[..])[N02(n)..]
      invariant LastTriple(t, p, i, c0, c1, c2)
      invariant i == 0 ==> name == 0
      invariant Named(t, p, r, R, i, name)
    {
      ghost var name0 := name;
      NameChoice(t, p, i, c0, c1, c2);
      var x := SA12[i];
      assert x == p[i] && r[i] == Slot(n, x);
      name, c0, c1, c2 := NextName(s, x, name, c0, c1, c2);
      NamedStep(t, p, r, R, i, name0, name);
      StoreName(s12, n, x, name);
      TailKept(R, r[i], name, N02(n));
      R := R[r[i] := name];
    }
    assert s12[N02(n)..] == R[N02(n)..];
  }

  lemma NamedPair(t: seq<int>, n: nat, p: seq<int>, r: seq<int>, R: seq<int>, u: nat, v: nat, name: nat)
    requires InText(t, p) && |r| == |p| && Within(r, |R|) && u < |p| && v < |p|
    requires Named(t, p, r, R, |p|, name) && Sorted(t, p)
    ensures R[r[u]] < R[r[v]] <==> TripleLess(t, p[u], p[v])
    ensures R[r[u]] == R[r[v]] <==> TripleEq(t, p[u], p[v])
  {
    if u < v {
      assert InOrder(t, p, r, R, u, v);
    } else if v < u {
      assert InOrder(t, p, r, R, v, u);
    }
  }

  lemma SlotIndex(t: seq<int>, n: nat, K: int, p: seq<int>, q: nat) returns (u: nat)
    requires SortedSample(t, n, K, p) && q < N02(n)
    ensures u < |p| && Slots(n, p)[u] == q && p[u] == Pos(n, q)
  {
    SlotsPermute(t, n, K, p);
    assert q in Slots(n, p);
    u :| 0 <= u < |p| && Slots(n, p)[u] == q;
    assert Sampled(n, p[u]);
    PosSlot(n, p[u]);
  }

  /** Naming makes the reduced string order-preserving, with symbols in 1..name. */
  lemma NamesFrom(t: seq<int>, n: nat, K: int, p: seq<int>, R: seq<int>, name: nat)
    requires SortedSample(t, n, K, p) && |p| <= |R| && InText(t, p)
    requires Within(Slots(n, p), |R|) && Named(t, p, Slots(n, p), R, |p|, name)
    ensures Names(t, n, R)
    ensures forall q | 0 <= q < N02(n) :: 1 <= R[q] <= name
  {
    SampleInText(t, n, K, p);
    var r := Slots(n, p);
    forall q, q' | 0 <= q < N02(n) && 0 <= q' < N02(n)
      ensures NamedAlike(t, n, R, q, q')
    {
      var u := SlotIndex(t, n, K, p, q);
      var v := SlotIndex(t, n, K, p, q');
      NamedPair(t, n, p, r, R, u, v, name);
    }
    forall q | 0 <= q < N02(n)
      ensures 1 <= R[q] <= name
    {
      var u := SlotIndex(t, n, K, p, q);
      assert 1 <= R[r[u]] <= name;
    }
  }
}
