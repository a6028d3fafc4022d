/** The skew algorithm (ssort.cc, suffixArray): linear-time suffix array construction. */
module SuffixArray {
  import opened Perm
  import opened SuffixOrder
  import opened SkewSample
  import opened SkewMerge

  /** When every name is in use, listing the slots by name lists them by suffix. */
  lemma UniqueNamesSorted(t: seq<int>, n: nat, K: int, p: seq<int>, R: seq<int>)
    requires SortedSample(t, n, K, p) && |p| <= |R| && InText(t, p) && Within(Slots(n, p), |R|)
    requires Named(t, p, Slots(n, p), R, |p|, |p|)
    ensures SlotsSorted(t, n, Slots(n, p))
    ensures forall u | 0 <= u < |p| :: R[Slots(n, p)[u]] == u + 1
  {
    hide Less;
    SlotsPermute(t, n, K, p);
    var r := Slots(n, p);
    forall u, v | 0 <= u < v < |r|
      ensures Less(t, n, Pos(n, r[u]), Pos(n, r[v]))
    {
      assert Sampled(n, p[u]) && Sampled(n, p[v]);
      PosSlot(n, p[u]);
      PosSlot(n, p[v]);
      assert InOrder(t, p, r, R, u, v);
      assert !TripleLess(t, p[v], p[u]);
      TripleDecides(t, n, K, p[u], p[v]);
    }
  }

  /** The suffix array of the reduced string lists the slots by suffix of the text. */
  lemma ReducedSorted(t: seq<int>, n: nat, K: int, R: seq<int>, sa: seq<int>)
    requires Text(t, n, K) && Names(t, n, R) && IsSuffixArray(R[..N02(n)], sa)
    ensures SlotsSorted(t, n, sa)
  {
    hide Less, LexLess;
    var m := N02(n);
    forall u, v | 0 <= u < v < |sa|
      ensures sa[u] != sa[v] && Less(t, n, Pos(n, sa[u]), Pos(n, sa[v]))
    {
      assert R[..m][sa[u]..] == R[sa[u]..m] && R[..m][sa[v]..] == R[sa[v]..m];
      LessIsLexLess(R, m, sa[u], sa[v]);
      if sa[u] == sa[v] {
        LessIrreflexive(R, m, sa[u]);
      }
      ReducedOrder(t, n, K, R, sa[u], sa[v]);
    }
  }

  /** ssort.cc:54-59: slots by suffix in SA12, their ranks in s12. */
  method RankSample(s: array<int>, s12: array<int>, SA12: array<int>, n: nat, ghost K: nat, name: nat)
    requires s != s12 && s != SA12 && s12 != SA12 && n >= 2 && s12.Length == SA12.Length == N02(n) + 3
    requires SortedSample(s[..], n, K, SA12[..N02(n)]) && InText(s[..], SA12[..N02(n)])
    requires Within(Slots(n, SA12[..N02(n)]), s12.Length)
    requires Named(s[..], SA12[..N02(n)], Slots(n, SA12[..N02(n)]), s12[..], N02(n), name)
    requires s12[N02(n)] == s12[N02(n) + 1] == s12[N02(n) + 2] == 0
    modifies s12, SA12
    ensures SlotsSorted(s[..], n, SA12[..N02(n)]) && Ranked(n, SA12[..N02(n)], s12[..])
    decreases n, 0
  {
    hide Less, Named, Names, IsSuffixArray, Slots, Sorted;
    ghost var t, p, R := s[..], SA12[..N02(n)], s12[..];
    NameBounds(t, n, p, Slots(n, p), R, name);
    if name < N02(n) {
      NamesFrom(t, n, K, p, R, name);
      SuffixArray(s12, SA12, N02(n), name);
      assert R[..N02(n)] == s12[..N02(n)];
      ReducedSorted(t, n, K, R, SA12[..N02(n)]);
      WriteRanks(SA12, s12, n);
    } else {
      UniqueNamesSorted(t, n, K, p, R);
      InvertNames(SA12, s12, n, Slots(n, p));
    }
  }

  lemma NameBounds(t: seq<int>, n: nat, p: seq<int>, r: seq<int>, R: seq<int>, name: nat)
    requires InText(t, p) && |r| == |p| == N02(n) && Within(r, |R|) && n >= 2 && Named(t, p, r, R, |p|, name)
    ensures 1 <= name <= N02(n) < n
  {
  }

  /** ssort.cc:34-59: the sampled positions, sorted, named and ranked. */
  method SortSample(s: array<int>, s12: array<int>, SA12: array<int>, n: nat, K: nat)
    requires s != s12 && s != SA12 && s12 != SA12 && n >= 2 && s12.Length == SA12.Length == N02(n) + 3
    requires Text(s[..], n, K) && s12[N02(n)] == s12[N02(n) + 1] == s12[N02(n) + 2] == 0
    modifies s12, SA12
    ensures SlotsSorted(s[..], n, SA12[..N02(n)]) && Ranked(n, SA12[..N02(n)], s12[..])
    decreases n, 1
  {
    hide Less, Named, Names, Slots, Sorted, Text, SortedSample, N02;
    ghost var tail := s12[N02(n)..];
    Positions(s12, n);
    SortTriples(s, s12, SA12, n, K);
    SortedSampleFrom(s[..], n, K, SA12[..N02(n)]);
    var name := NameTriples(s, SA12, s12, n, K);
    assert s12[N02(n)..] == tail;
    assert tail[0] == s12[N02(n)] && tail[1] == s12[N02(n) + 1] && tail[2] == s12[N02(n) + 2];
    RankSample(s, s12, SA12, n, K, name);
  }

  /** ssort.cc:61-63 */
  method SortZeroSuffixes(s: array<int>, SA12: array<int>, s0: array<int>, SA0: array<int>, n: nat, K: nat)
    requires n >= 2 && Text(s[..], n, K) && SA12.Length == N02(n) + 3 && s0.Length == SA0.Length == N0(n)
    requires s0 != s && s0 != SA12 && s0 != SA0 && SA0 != s && SA0 != SA12
    requires SlotsSorted(s[..], n, SA12[..N02(n)])
    modifies s0, SA0
    ensures ZeroPositions(SA0[..], n) && Ascending(s[..], n, SA0[..])
  {
    hide Less, Lower;
    ZeroSuffixes(SA12, s0, n);
    ZeroOrder(s[..], n, SA12[..N02(n)], s0[..]);
    SortZeros(s, s0, SA0, n, K);
    ZerosAscending(s[..], n, SA0[..]);
  }

  lemma MergedEverything(SA: array<int>, before: seq<int>, t: seq<int>, n: nat, a: seq<int>, u: nat, b: seq<int>,
                         v: nat)
    requires Progress(SA, before, t, n, a, u, b, v) && u == |a| && v == |b|
    ensures n <= |t| && n <= SA.Length == |before| && IsSuffixArray(t[..n], SA[..n]) && SA[n..] == before[n..]
  {
    MergeDone(t, n, SA[..n], a, b);
  }

  /** Fills SA[..n] with the suffix array of s[..n], a string over 1..K with three zeros behind it. */
  method SuffixArray(s: array<int>, SA: array<int>, n: nat, K: nat)
    requires s != SA && n >= 2 && SA.Length >= n && Text(s[..], n, K)
    modifies SA
    ensures IsSuffixArray(s[..n], SA[..n])
    ensures SA[n..] == old(SA[n..])
    decreases n, 2
  {
    hide Less, IsSuffixArray, Ascending, SlotsSorted, Ranked, ZeroPositions, Progress, N0, N02;
    var n0, n02 := N0(n), N02(n);
    var s12 := new int[n02 + 3];
    s12[n02], s12[n02 + 1], s12[n02 + 2] := 0, 0, 0;
    var SA12 := new int[n02 + 3];
    SA12[n02], SA12[n02 + 1], SA12[n02 + 2] := 0, 0, 0;
    var s0 := new int[n0];
    var SA0 := new int[n0];
    ghost var t, before := s[..], SA[..];
    SortSample(s, s12, SA12, n, K);
    SortZeroSuffixes(s, SA12, s0, SA0, n, K);
    Merge(s, s12, SA12, SA0, SA, n, K);
    MergedEverything(SA, before, t, n, SamplePositions(n, SA12[..n02]), N02(n) - (N0(n) - N1(n)), SA0[..], n0);
    assert t[..n] == s[..n];
  }
}
