/** The second half of the skew algorithm: ranking the sample, sorting the mod 0 suffixes, and merging. */
module SkewMerge {
  import opened Perm
  import opened SuffixOrder
  import RadixPass

  /** sa lists all slots, by the suffixes of the text they stand for. */
  ghost predicate SlotsSorted(t: seq<int>, n: nat, sa: seq<int>)
    requires n <= |t|
  {
    && |sa| == N02(n) && Distinct(sa) && Within(sa, N02(n)) && Covers(sa, N02(n))
    && forall u, v | 0 <= u < v < |sa| :: Less(t, n, Pos(n, sa[u]), Pos(n, sa[v]))
  }

  /** R holds the rank, counted from 1, of every slot. */
  ghost predicate Ranked(n: nat, sa: seq<int>, R: seq<int>) {
    && |sa| == N02(n) < |R| && Within(sa, N02(n)) && R[N02(n)] == 0
    && forall u | 0 <= u < |sa| :: R[sa[u]] == u + 1
  }

  lemma RankDecides(t: seq<int>, n: nat, sa: seq<int>, R: seq<int>, q: nat, q': nat)
    requires n <= |t| && SlotsSorted(t, n, sa) && Ranked(n, sa, R)
    requires q < N02(n) && q' < N02(n) && q != q'
    ensures R[q] != R[q'] && R[q] >= 1 && R[q'] >= 1
    ensures R[q] < R[q'] ==> Less(t, n, Pos(n, q), Pos(n, q'))
    ensures R[q'] < R[q] ==> Less(t, n, Pos(n, q'), Pos(n, q))
  {
    assert q in sa && q' in sa;
    var u, v :| 0 <= u < |sa| && 0 <= v < |sa| && sa[u] == q && sa[v] == q';
  }

  /** ssort.cc:57 */
  method WriteRanks(SA12: array<int>, s12: array<int>, n: nat)
    requires s12 != SA12 && s12.Length == SA12.Length == N02(n) + 3
    requires Distinct(SA12[..N02(n)]) && Within(SA12[..N02(n)], N02(n)) && s12[N02(n)] == 0
    modifies s12
    ensures Ranked(n, SA12[..N02(n)], s12[..])
  {
    hide N02;
    ghost var sa := SA12[..N02(n)];
    for i := 0 to N02(n)
      invariant forall u | 0 <= u < i :: s12[sa[u]] == u + 1
      invariant s12[N02(n)] == 0
    {
      assert SA12[i] == sa[i];
      s12[SA12[i]] := i + 1;
    }
  }

  /** ssort.cc:59. With the names 1 .. n02 all in use, the suffix array is their inverse. */
  method InvertNames(SA12: array<int>, s12: array<int>, n: nat, ghost r: seq<int>)
    requires s12 != SA12 && s12.Length == SA12.Length == N02(n) + 3
    requires |r| == N02(n) && Distinct(r) && Within(r, N02(n)) && Covers(r, N02(n))
    requires forall u | 0 <= u < |r| :: s12[r[u]] == u + 1
    modifies SA12
    ensures SA12[..N02(n)] == r
  {
    hide N02;
    for i := 0 to N02(n)
      invariant forall u | 0 <= u < |r| && r[u] < i :: SA12[u] == r[u]
    {
      assert i in r;
      ghost var u :| 0 <= u < |r| && r[u] == i;
      SA12[s12[i] - 1] := i;
    }
  }

  // ---------------------------------------------------------------- mod 0 suffixes

  /** The members of sa below m, in order. */
  ghost function Lower(sa: seq<int>, m: int): seq<int> {
    if sa == [] then []
    else Lower(sa[..|sa| - 1], m) + if sa[|sa| - 1] < m then [sa[|sa| - 1]] else []
  }

  lemma {:induction false} LowerMembers(sa: seq<int>, m: int, v: int)
    ensures v in Lower(sa, m) <==> v in sa && v < m
  {
    if sa != [] {
      LowerMembers(sa[..|sa| - 1], m, v);
      assert sa == sa[..|sa| - 1] + [sa[|sa| - 1]];
    }
  }

  /** Lower keeps the order of sa. */
  lemma {:induction false} LowerEmbedded(sa: seq<int>, m: int, a: nat, b: nat) returns (u: nat, v: nat)
    requires a < b < |Lower(sa, m)|
    ensures u < v < |sa| && Lower(sa, m)[a] == sa[u] && Lower(sa, m)[b] == sa[v]
  {
    var front := sa[..|sa| - 1];
    if b < |Lower(front, m)| {
      u, v := LowerEmbedded(front, m, a, b);
    } else {
      LowerMembers(front, m, Lower(front, m)[a]);
      assert Lower(front, m)[a] in front;
      u :| 0 <= u < |front| && front[u] == Lower(front, m)[a];
      v := |sa| - 1;
    }
  }

  lemma LowerDistinct(sa: seq<int>, m: nat, N: int)
    requires Distinct(sa) && Within(sa, N)
    ensures Distinct(Lower(sa, m)) && Within(Lower(sa, m), m) && |Lower(sa, m)| <= m
    ensures Covers(sa, m) ==> |Lower(sa, m)| == m
  {
    var low := Lower(sa, m);
    forall a, b | 0 <= a < b < |low|
      ensures low[a] != low[b]
    {
      var u, v := LowerEmbedded(sa, m, a, b);
    }
    forall a | 0 <= a < |low|
      ensures 0 <= low[a] < m
    {
      LowerMembers(sa, m, low[a]);
    }
    Pigeonhole(low, m);
    if Covers(sa, m) {
      forall v | 0 <= v < m
        ensures v in low
      {
        LowerMembers(sa, m, v);
      }
      CoverLength(low, m);
    }
  }

  lemma LowerStep(sa: seq<int>, m: nat, N: int, i: nat)
    requires Distinct(sa) && Within(sa, N) && i < |sa|
    ensures Lower(sa[..i + 1], m) == Lower(sa[..i], m) + if sa[i] < m then [sa[i]] else []
    ensures |Lower(sa[..i + 1], m)| <= m
  {
    LowerDistinct(sa[..i + 1], m, N);
    assert sa[..i + 1][..i] == sa[..i];
  }

  /** ssort.cc:62 */
  method ZeroSuffixes(SA12: array<int>, s0: array<int>, n: nat)
    requires s0 != SA12 && n >= 2 && SA12.Length == N02(n) + 3 && s0.Length == N0(n)
    requires Distinct(SA12[..N02(n)]) && Within(SA12[..N02(n)], N02(n)) && Covers(SA12[..N02(n)], N02(n))
    modifies s0
    ensures |Lower(SA12[..N02(n)], N0(n))| == N0(n)
    ensures forall k | 0 <= k < N0(n) :: s0[k] == 3 * Lower(SA12[..N02(n)], N0(n))[k]
  {
    hide Lower, Distinct, Within, Covers;
    ghost var sa := SA12[..N02(n)];
    LowerStart(sa, N0(n), N02(n));
    var j := 0;
    for i := 0 to N02(n)
      invariant j == |Lower(sa[..i], N0(n))| <= N0(n)
      invariant forall k | 0 <= k < j :: s0[k] == 3 * Lower(sa[..i], N0(n))[k]
    {
      LowerStep(sa, N0(n), N02(n), i);
      assert SA12[i] == sa[i];
      if SA12[i] < N0(n) {
        s0[j] := 3 * SA12[i];
        j := j + 1;
      }
    }
    assert sa[..N02(n)] == sa;
  }

  lemma LowerStart(sa: seq<int>, m: nat, N: nat)
    requires Distinct(sa) && Within(sa, N) && Covers(sa, N) && m <= N
    ensures Lower(sa[..0], m) == [] && |Lower(sa, m)| == m
  {
    LowerDistinct(sa, m, N);
  }

  ghost predicate ZeroPositions(p: seq<int>, n: int) {
    forall k | 0 <= k < |p| :: ZeroPosition(n, p[k])
  }

  ghost predicate ZeroPosition(n: int, x: int) {
    0 <= x < n && x % 3 == 0
  }

  ghost predicate TailLess(t: seq<int>, n: nat, x: int, y: int)
    requires n <= |t|
  {
    0 <= x && 0 <= y && Less(t, n, x + 1, y + 1)
  }

  ghost predicate HeadLess(t: seq<int>, n: nat, x: int, y: int)
    requires n <= |t|
  {
    0 <= x && 0 <= y && Less(t, n, x, y)
  }

  ghost function ByTail(t: seq<int>, n: nat): (int, int) -> bool
    requires n <= |t|
  {
    (x, y) => TailLess(t, n, x, y)
  }

  ghost function ByHead(t: seq<int>, n: nat): (int, int) -> bool
    requires n <= |t|
  {
    (x, y) => HeadLess(t, n, x, y)
  }

  lemma ZeroOrder(t: seq<int>, n: nat, sa: seq<int>, p: seq<int>)
    requires n <= |t| && n >= 2 && SlotsSorted(t, n, sa) && |p| == |Lower(sa, N0(n))| == N0(n)
    requires forall k | 0 <= k < N0(n) :: p[k] == 3 * Lower(sa, N0(n))[k]
    ensures ZeroPositions(p, n) && RadixPass.Pairwise(p, ByTail(t, n))
  {
    LowerDistinct(sa, N0(n), N02(n));
    forall k | 0 <= k < |p|
      ensures ZeroPosition(n, p[k])
    {
      assert 0 <= Lower(sa, N0(n))[k] < N0(n);
    }
    forall a, b | 0 <= a < b < |p|
      ensures ByTail(t, n)(p[a], p[b])
    {
      var u, v := LowerEmbedded(sa, N0(n), a, b);
      assert Less(t, n, Pos(n, sa[u]), Pos(n, sa[v]));
      assert 0 <= Lower(sa, N0(n))[a] < N0(n) && 0 <= Lower(sa, N0(n))[b] < N0(n);
      assert TailLess(t, n, p[a], p[b]);
    }
  }

  /** ssort.cc:63 */
  method SortZeros(s: array<int>, s0: array<int>, SA0: array<int>, n: nat, K: nat)
    requires SA0 != s && SA0 != s0 && s0.Length == SA0.Length == N0(n) && Text(s[..], n, K)
    requires ZeroPositions(s0[..], n) && RadixPass.Pairwise(s0[..], ByTail(s[..], n))
    modifies SA0
    ensures ZeroPositions(SA0[..], n) && RadixPass.Pairwise(SA0[..], ByHead(s[..], n))
  {
    ghost var t, a := s[..], s0[..];
    assert s[0..] == t && s0[..N0(n)] == a;
    KeyedZeros(t, n, K, a);
    RadixPass.StableOrder(a, t, K, ByTail(t, n), ByHead(t, n));
    RadixPass.StablePermutation(a, t, K);
    ZerosAgain(a, RadixPass.StableByKey(a, t, K), n);
    RadixPass.Sort(s0, SA0, s, 0, N0(n), K);
    assert SA0[..N0(n)] == SA0[..];
  }

  lemma ZerosAgain(p: seq<int>, p': seq<int>, n: nat)
    requires ZeroPositions(p, n) && multiset(p') == multiset(p)
    ensures ZeroPositions(p', n)
  {
    forall k | 0 <= k < |p'|
      ensures ZeroPosition(n, p'[k])
    {
      assert p'[k] in multiset(p');
      assert p'[k] in p;
    }
  }

  lemma KeyedZeros(t: seq<int>, n: nat, K: int, a: seq<int>)
    requires Text(t, n, K) && ZeroPositions(a, n)
    ensures RadixPass.Keyed(a, t, K)
    ensures RadixPass.KeyThen(a, t, K, ByTail(t, n), ByHead(t, n))
  {
    forall k | 0 <= k < |a|
      ensures 0 <= a[k] < |t| && 0 <= t[a[k]] <= K
    {
      assert ZeroPosition(n, a[k]);
    }
    forall x, y | x in a && y in a && (t[x] < t[y] || (t[x] == t[y] && ByTail(t, n)(x, y)))
      ensures ByHead(t, n)(x, y)
    {
      assert ZeroPosition(n, x) && ZeroPosition(n, y);
      assert HeadLess(t, n, x, y);
    }
  }

  // ---------------------------------------------------------------- the merge

  /** The suffixes at increasing indices increase. */
  ghost predicate Ascending(t: seq<int>, n: nat, p: seq<int>)
    requires n <= |t|
  {
    && Within(p, n)
    && forall a, b | 0 <= a < b < |p| :: Less(t, n, p[a], p[b])
  }

  ghost predicate AllLess(t: seq<int>, n: nat, p: seq<int>, q: seq<int>)
    requires n <= |t| && Within(p, n) && Within(q, n)
  {
    forall a, b | 0 <= a < |p| && 0 <= b < |q| :: Less(t, n, p[a], q[b])
  }

  /** out is done; a[u..] and b[v..] are still to come. */
  ghost predicate Merged(t: seq<int>, n: nat, out: seq<int>, a: seq<int>, u: nat, b: seq<int>, v: nat)
    requires n <= |t| && Ascending(t, n, a) && Ascending(t, n, b) && u <= |a| && v <= |b|
  {
    && |out| == u + v && Ascending(t, n, out)
    && AllLess(t, n, out, a[u..]) && AllLess(t, n, out, b[v..])
  }

  lemma MergedSymmetric(t: seq<int>, n: nat, out: seq<int>, a: seq<int>, u: nat, b: seq<int>, v: nat)
    requires n <= |t| && Ascending(t, n, a) && Ascending(t, n, b) && u <= |a| && v <= |b|
    requires Merged(t, n, out, a, u, b, v)
    ensures Merged(t, n, out, b, v, a, u)
  {
  }

  /** Taking the head of a is right when it is below the head of b, or b is used up. */
  lemma MergeTake(t: seq<int>, n: nat, out: seq<int>, a: seq<int>, u: nat, b: seq<int>, v: nat)
    requires n <= |t| && Ascending(t, n, a) && Ascending(t, n, b) && u < |a| && v <= |b|
    requires Merged(t, n, out, a, u, b, v)
    requires v < |b| ==> Less(t, n, a[u], b[v])
    ensures Merged(t, n, out + [a[u]], a, u + 1, b, v)
  {
    hide Less;
    var out' := out + [a[u]];
    forall i, j | 0 <= i < j < |out'|
      ensures Less(t, n, out'[i], out'[j])
    {
      if j == |out| {
        assert a[u..][0] == a[u];
      }
    }
    var rest := a[u + 1..];
    forall i, j | 0 <= i < |out'| && 0 <= j < |rest|
      ensures Less(t, n, out'[i], rest[j])
    {
      assert rest[j] == a[u..][j + 1] == a[u + 1 + j];
    }
    forall i, j | 0 <= i < |out'| && 0 <= j < |b[v..]|
      ensures Less(t, n, out'[i], b[v..][j])
    {
      if i == |out| && j > 0 {
        assert b[v..][j] == b[v + j];
        LessTransitive(t, n, a[u], b[v], b[v + j]);
      }
    }
  }

  /** An ascending list of n suffixes is the suffix array. */
  lemma AscendingIsSuffixArray(t: seq<int>, n: nat, p: seq<int>)
    requires n <= |t| && |p| == n && Ascending(t, n, p)
    ensures IsSuffixArray(t[..n], p)
  {
    hide Less, LexLess;
    forall a, b | 0 <= a < b < |p|
      ensures p[a] != p[b] && LexLess(t[..n][p[a]..], t[..n][p[b]..])
    {
      LessIrreflexive(t, n, p[a]);
      LessIsLexLess(t, n, p[a], p[b]);
      assert t[..n][p[a]..] == t[p[a]..n] && t[..n][p[b]..] == t[p[b]..n];
    }
    Pigeonhole(p, n);
  }

  /** ssort.cc:67 */
  function GetI(n: nat, q: nat): nat {
    if q < N0(n) then q * 3 + 1 else (q - N0(n)) * 3 + 2
  }

  /** ssort.cc:70-72 */
  predicate SampleFirst(s: seq<int>, R: seq<int>, n: nat, q: nat, j: nat)
    requires |s| >= n + 3 && |R| > N02(n) && q < N02(n) && j % 3 == 0 && j < n
  {
    var i := GetI(n, q);
    if q < N0(n) then LeqPair(s[i], R[q + N0(n)], s[j], R[j / 3])
    else LeqTriple(s[i], s[i + 1], R[q - N0(n) + 1], s[j], s[j + 1], R[j / 3 + N0(n)])
  }

  lemma LessStep(t: seq<int>, n: nat, i: nat, j: nat)
    requires n <= |t| && i < n && j < n
    ensures Less(t, n, i, j) <==> t[i] < t[j] || (t[i] == t[j] && Less(t, n, i + 1, j + 1))
  {
  }

  /** A mod 1 suffix against a mod 0 suffix: after one symbol both have a rank. */
  lemma CompareMod1(t: seq<int>, n: nat, K: int, sa: seq<int>, R: seq<int>, q: nat, j: nat)
    requires Text(t, n, K) && SlotsSorted(t, n, sa) && Ranked(n, sa, R) && n >= 2
    requires q < N0(n) && Pos(n, q) < n && ZeroPosition(n, j)
    ensures if SampleFirst(t, R, n, q, j) then Less(t, n, Pos(n, q), j) else Less(t, n, j, Pos(n, q))
  {
    hide SlotsSorted, Ranked, Less;
    var i, h := Pos(n, q), j / 3;
    assert h < N0(n) && Pos(n, h) == j + 1;
    LessStep(t, n, i, j);
    LessStep(t, n, j, i);
    if t[i] == t[j] {
      if q + N0(n) < N02(n) {
        assert Pos(n, q + N0(n)) == i + 1;
        RankDecides(t, n, sa, R, q + N0(n), h);
      } else {
        RankBeyond(t, n, sa, R, h);
        EmptyFirst(t, n, i + 1, j + 1);
      }
    }
  }

  lemma RankBeyond(t: seq<int>, n: nat, sa: seq<int>, R: seq<int>, q: nat)
    requires n <= |t| && SlotsSorted(t, n, sa) && Ranked(n, sa, R) && q < N02(n)
    ensures |R| > N02(n) && R[N02(n)] == 0 < R[q]
  {
    assert q in sa;
    var u :| 0 <= u < |sa| && sa[u] == q;
  }

  lemma EmptyFirst(t: seq<int>, n: nat, i: nat, j: nat)
    requires j < n <= i && n <= |t|
    ensures Less(t, n, i, j)
  {
  }

  /** A mod 2 suffix against a mod 0 suffix: after two symbols both have a rank, or the symbols have decided. */
  lemma CompareMod2(t: seq<int>, n: nat, K: int, sa: seq<int>, R: seq<int>, q: nat, j: nat)
    requires Text(t, n, K) && SlotsSorted(t, n, sa) && Ranked(n, sa, R) && n >= 2
    requires N0(n) <= q < N02(n) && ZeroPosition(n, j)
    ensures Pos(n, q) < n
    ensures if SampleFirst(t, R, n, q, j) then Less(t, n, Pos(n, q), j) else Less(t, n, j, Pos(n, q))
  {
    hide SlotsSorted, Ranked, Less;
    var i, h := Pos(n, q), j / 3;
    var m := q - N0(n) + 1;
    LessStep(t, n, i, j);
    LessStep(t, n, j, i);
    if t[i] == t[j] {
      if i + 1 < n && j + 1 < n {
        LessStep(t, n, i + 1, j + 1);
        LessStep(t, n, j + 1, i + 1);
        if t[i + 1] == t[j + 1] {
          assert m < N0(n) && Pos(n, m) == i + 2;
          if h + N0(n) < N02(n) {
            assert Pos(n, h + N0(n)) == j + 2;
            RankDecides(t, n, sa, R, m, h + N0(n));
          } else {
            assert h + N0(n) == N02(n);
            RankBeyond(t, n, sa, R, m);
            EmptyFirst(t, n, j + 2, i + 2);
          }
        }
      } else if i + 1 < n {
        assert t[j + 1] == 0 < t[i + 1];
        EmptyFirst(t, n, j + 1, i + 1);
      } else {
        assert t[i + 1] == 0 < t[j + 1];
        EmptyFirst(t, n, i + 1, j + 1);
      }
    }
  }

  /** The comparison of ssort.cc:70-72 decides the order of the two suffixes. */
  lemma CompareDecides(t: seq<int>, n: nat, K: int, sa: seq<int>, R: seq<int>, q: nat, j: nat)
    requires Text(t, n, K) && SlotsSorted(t, n, sa) && Ranked(n, sa, R) && n >= 2
    requires q < N02(n) && Pos(n, q) < n && ZeroPosition(n, j)
    ensures if SampleFirst(t, R, n, q, j) then Less(t, n, Pos(n, q), j) else Less(t, n, j, Pos(n, q))
  {
    if q < N0(n) {
      CompareMod1(t, n, K, sa, R, q, j);
    } else {
      CompareMod2(t, n, K, sa, R, q, j);
    }
  }

  /** The positions the sample's slots stand for, without the dummy in front when there is one. */
  ghost function SamplePositions(n: nat, sa: seq<int>): (r: seq<int>)
    requires |sa| == N02(n) && Within(sa, N02(n)) && n >= 2
    ensures |r| == N02(n) - (N0(n) - N1(n))
    ensures forall u | 0 <= u < |r| :: r[u] == Pos(n, sa[u + (N0(n) - N1(n))])
  {
    seq(N02(n) - (N0(n) - N1(n)), u requires 0 <= u < N02(n) - (N0(n) - N1(n)) => Pos(n, sa[u + (N0(n) - N1(n))]))
  }

  lemma SampleAscending(t: seq<int>, n: nat, sa: seq<int>)
    requires n <= |t| && n >= 2 && SlotsSorted(t, n, sa)
    ensures Ascending(t, n, SamplePositions(n, sa))
  {
    var d := N0(n) - N1(n);
    forall u | 0 <= u < |SamplePositions(n, sa)|
      ensures 0 <= SamplePositions(n, sa)[u] < n
    {
      if d == 1 {
        assert Less(t, n, Pos(n, sa[0]), Pos(n, sa[u + 1]));
      } else {
        assert 0 <= sa[u] < N02(n);
      }
    }
    assert forall u, v | 0 <= u < v < |sa| :: Less(t, n, Pos(n, sa[u]), Pos(n, sa[v]));
  }

  lemma ZerosAscending(t: seq<int>, n: nat, p: seq<int>)
    requires n <= |t| && ZeroPositions(p, n) && RadixPass.Pairwise(p, ByHead(t, n))
    ensures Ascending(t, n, p)
  {
    forall k | 0 <= k < |p|
      ensures 0 <= p[k] < n
    {
      assert ZeroPosition(n, p[k]);
    }
    forall a, b | 0 <= a < b < |p|
      ensures Less(t, n, p[a], p[b])
    {
      assert ByHead(t, n)(p[a], p[b]);
      assert HeadLess(t, n, p[a], p[b]);
    }
  }

  /** Everything the merge reads, and what is known of it. */
  ghost predicate MergeInput(t: seq<int>, n: nat, K: int, sa: seq<int>, R: seq<int>, b: seq<int>) {
    && n >= 2 && Text(t, n, K) && SlotsSorted(t, n, sa) && Ranked(n, sa, R)
    && |b| == N0(n) && ZeroPositions(b, n) && Ascending(t, n, b)
  }

  lemma MergeStart(t: seq<int>, n: nat, K: int, sa: seq<int>, R: seq<int>, b: seq<int>)
    requires MergeInput(t, n, K, sa, R, b)
    ensures n <= |t| && |sa| == N02(n) && Within(sa, N02(n))
    ensures Ascending(t, n, SamplePositions(n, sa)) && Ascending(t, n, b)
    ensures Merged(t, n, [], SamplePositions(n, sa), 0, b, 0)
    ensures N1(n) <= N0(n) && N0(n) - N1(n) < N02(n) && 0 < N0(n) && |SamplePositions(n, sa)| + |b| == n
  {
    SampleAscending(t, n, sa);
  }

  /** The comparison puts the smaller of the two heads first. */
  lemma MergeChoice(t: seq<int>, n: nat, K: int, sa: seq<int>, R: seq<int>, b: seq<int>, u: nat, v: nat)
    requires MergeInput(t, n, K, sa, R, b) && u < |sa| - (N0(n) - N1(n)) && v < |b|
    ensures |t| >= n + 3 && |R| > N02(n) && 0 <= sa[u + (N0(n) - N1(n))] < N02(n) && 0 <= b[v] < n && b[v] % 3 == 0
    ensures var a := SamplePositions(n, sa);
            && 0 <= a[u] == GetI(n, sa[u + (N0(n) - N1(n))])
            && if SampleFirst(t, R, n, sa[u + (N0(n) - N1(n))], b[v]) then Less(t, n, a[u], b[v])
               else Less(t, n, b[v], a[u])
  {
    hide Less;
    SampleAscending(t, n, sa);
    assert ZeroPosition(n, b[v]);
    assert 0 <= SamplePositions(n, sa)[u] < n;
    CompareDecides(t, n, K, sa, R, sa[u + (N0(n) - N1(n))], b[v]);
  }

  lemma MergeTakeOther(t: seq<int>, n: nat, out: seq<int>, a: seq<int>, u: nat, b: seq<int>, v: nat)
    requires n <= |t| && Ascending(t, n, a) && Ascending(t, n, b) && u <= |a| && v < |b|
    requires Merged(t, n, out, a, u, b, v)
    requires u < |a| ==> Less(t, n, b[v], a[u])
    ensures Merged(t, n, out + [b[v]], a, u, b, v + 1)
  {
    MergedSymmetric(t, n, out, a, u, b, v);
    MergeTake(t, n, out, b, v, a, u);
    MergedSymmetric(t, n, out + [b[v]], b, v + 1, a, u);
  }

  /** What has been written so far is a merge of the first u of a and the first v of b. */
  ghost predicate Progress(SA: array<int>, before: seq<int>, t: seq<int>, n: nat, a: seq<int>, u: nat, b: seq<int>,
                           v: nat)
    reads SA
  {
    && n <= |t| && Ascending(t, n, a) && Ascending(t, n, b) && u <= |a| && v <= |b| && |a| + |b| == n
    && |before| == SA.Length >= n && SA[n..] == before[n..]
    && Merged(t, n, SA[..u + v], a, u, b, v)
  }

  lemma ProgressStart(SA: array<int>, t: seq<int>, n: nat, a: seq<int>, b: seq<int>)
    requires n <= |t| && Ascending(t, n, a) && Ascending(t, n, b) && |a| + |b| == n <= SA.Length
    requires Merged(t, n, [], a, 0, b, 0)
    ensures Progress(SA, SA[..], t, n, a, 0, b, 0)
  {
    assert SA[..0] == [];
  }

  method Put(SA: array<int>, k: nat, x: int, ghost before: seq<int>, ghost t: seq<int>, ghost n: nat,
             ghost a: seq<int>, ghost u: nat, ghost b: seq<int>, ghost v: nat, ghost fromA: bool)
    requires Progress(SA, before, t, n, a, u, b, v) && k == u + v
    requires if fromA then u < |a| && x == a[u] && (v < |b| ==> Less(t, n, a[u], b[v]))
             else v < |b| && x == b[v] && (u < |a| ==> Less(t, n, b[v], a[u]))
    modifies SA
    ensures if fromA then Progress(SA, before, t, n, a, u + 1, b, v) else Progress(SA, before, t, n, a, u, b, v + 1)
  {
    hide Less, Merged, Ascending;
    ghost var out := SA[..k];
    SA[k] := x;
    assert SA[..k + 1] == out + [x];
    if fromA {
      MergeTake(t, n, out, a, u, b, v);
    } else {
      MergeTakeOther(t, n, out, a, u, b, v);
    }
  }

  /** ssort.cc:75-77: only mod 0 suffixes are left. */
  method CopyZeros(SA0: array<int>, SA: array<int>, p0: nat, k0: nat, n: nat,
                   ghost before: seq<int>, ghost t: seq<int>, ghost a: seq<int>) returns (p: nat, k: nat)
    requires SA != SA0 && p0 <= SA0.Length == N0(n)
    requires Progress(SA, before, t, n, a, |a|, SA0[..], p0) && k0 == |a| + p0
    modifies SA
    ensures p == SA0.Length && k == n
    ensures Progress(SA, before, t, n, a, |a|, SA0[..], p)
  {
    hide Less, Merged, Ascending;
    p, k := p0, k0;
    ghost var b := SA0[..];
    while p < N0(n)
      invariant p <= N0(n) && k == |a| + p
      invariant Progress(SA, before, t, n, a, |a|, b, p)
    {
      Put(SA, k, SA0[p], before, t, n, a, |a|, b, p, false);
      p := p + 1;
      k := k + 1;
    }
  }

  lemma SampleAt(n: nat, sa: seq<int>, t: nat)
    requires |sa| == N02(n) && Within(sa, N02(n)) && n >= 2 && N0(n) - N1(n) <= t < N02(n)
    ensures N1(n) <= N0(n) && 0 <= sa[t] < N02(n)
    ensures t - (N0(n) - N1(n)) < |SamplePositions(n, sa)|
    ensures SamplePositions(n, sa)[t - (N0(n) - N1(n))] == GetI(n, sa[t])
  {
  }

  /** ssort.cc:80-82: only sampled suffixes are left. */
  method CopySample(SA12: array<int>, SA: array<int>, t0: nat, k0: nat, n: nat,
                    ghost before: seq<int>, ghost text: seq<int>, ghost b: seq<int>) returns (t: nat, k: nat)
    requires n >= 2 && SA != SA12 && SA12.Length == N02(n) + 3 && N0(n) - N1(n) <= t0 <= N02(n)
    requires Within(SA12[..N02(n)], N02(n))
    requires Progress(SA, before, text, n, SamplePositions(n, SA12[..N02(n)]), t0 - (N0(n) - N1(n)), b, |b|)
    requires k0 == t0 - (N0(n) - N1(n)) + |b|
    modifies SA
    ensures t == N02(n) && k == n
    ensures Progress(SA, before, text, n, SamplePositions(n, SA12[..N02(n)]), t - (N0(n) - N1(n)), b, |b|)
  {
    hide Less, Merged, Ascending, Within, N0, N1, N02, GetI, Pos;
    t, k := t0, k0;
    ghost var sa := SA12[..N02(n)];
    ghost var a := SamplePositions(n, sa);
    ghost var d := N0(n) - N1(n);
    while t < N02(n)
      invariant d <= t <= N02(n) && k == t - d + |b|
      invariant Progress(SA, before, text, n, a, t - d, b, |b|)
    {
      SampleAt(n, sa, t);
      assert SA12[t] == sa[t];
      Put(SA, k, GetI(n, SA12[t]), before, text, n, a, t - d, b, |b|, true);
      t := t + 1;
      k := k + 1;
    }
  }

  /** ssort.cc:66-84 */
  method Merge(s: array<int>, s12: array<int>, SA12: array<int>, SA0: array<int>, SA: array<int>, n: nat, ghost K: nat)
    requires SA != s && SA != s12 && SA != SA12 && SA != SA0
    requires n >= 2 && SA.Length >= n && SA0.Length == N0(n) && s12.Length == SA12.Length == N02(n) + 3
    requires MergeInput(s[..], n, K, SA12[..N02(n)], s12[..], SA0[..])
    modifies SA
    ensures Within(SA12[..N02(n)], N02(n))
    ensures Progress(SA, old(SA[..]), s[..], n, SamplePositions(n, SA12[..N02(n)]), N02(n) - (N0(n) - N1(n)),
                     SA0[..], N0(n))
  {
    hide Less, Merged, Ascending, MergeInput, N0, N1, N02, GetI, SampleFirst, Within, Progress;
    ghost var text, sa, R, b, before := s[..], SA12[..N02(n)], s12[..], SA0[..], SA[..];
    MergeStart(text, n, K, sa, R, b);
    ghost var a, d := SamplePositions(n, sa), N0(n) - N1(n);
    ProgressStart(SA, text, n, a, b);
    var p, t, k := 0, N0(n) - N1(n), 0;
    while k < n
      invariant 0 <= p <= N0(n) && d <= t <= N02(n)
      invariant if k < n then p < N0(n) && t < N02(n) && k == p + (t - d) else p == N0(n) && t == N02(n)
      invariant Progress(SA, before, text, n, a, t - d, b, p)
      decreases n - k
    {
      MergeChoice(text, n, K, sa, R, b, t - d, p);
      assert SA12[t] == sa[(t - d) + d];
      var i := GetI(n, SA12[t]);
      var j := SA0[p];
      var sampleFirst := SampleBeforeZero(s, s12, SA12[t], n, j);
      if sampleFirst {
        Put(SA, k, i, before, text, n, a, t - d, b, p, true);
        t := t + 1;
        if t == N02(n) {
          p, k := CopyZeros(SA0, SA, p, k + 1, n, before, text, a);
        }
      } else {
        Put(SA, k, j, before, text, n, a, t - d, b, p, false);
        p := p + 1;
        if p == N0(n) {
          t, k := CopySample(SA12, SA, t, k + 1, n, before, text, b);
        }
      }
      k := k + 1;
    }
  }

  /** The reads and the test of ssort.cc:70-72. */
  method SampleBeforeZero(s: array<int>, s12: array<int>, q: nat, n: nat, j: nat) returns (r: bool)
    requires s.Length >= n + 3 && s12.Length > N02(n) && q < N02(n) && j % 3 == 0 && j < n
    ensures r == SampleFirst(s[..], s12[..], n, q, j)
  {
    var i := GetI(n, q);
    if q < N0(n) {
      r := LeqPair(s[i], s12[q + N0(n)], s[j], s12[j / 3]);
    } else {
      r := LeqTriple(s[i], s[i + 1], s12[q - N0(n) + 1], s[j], s[j + 1], s12[j / 3 + N0(n)]);
    }
  }

  lemma MergeDone(t: seq<int>, n: nat, out: seq<int>, a: seq<int>, b: seq<int>)
    requires n <= |t| && Ascending(t, n, a) && Ascending(t, n, b) && |a| + |b| == n
    requires Merged(t, n, out, a, |a|, b, |b|)
    ensures IsSuffixArray(t[..n], out)
  {
    AscendingIsSuffixArray(t, n, out);
  }
}
