/** Bottom-up merging of runs on sequences, and why it sorts stably. */
module MergeSpec {

  class ListHead<T> {
    var next: ListHead?<T>
    const info: T

    constructor (info: T)
      ensures this.info == info && next == null
    {
      this.info := info;
      next := null;
    }
  }

  type Cmp<!T(!new)> = (T, T) -> int

  predicate Leq<T(!new)>(cmp: Cmp<T>, a: ListHead<T>, b: ListHead<T>) {
    cmp(a.info, b.info) <= 0
  }

  ghost predicate TotalPreorder<T(!new)>(cmp: Cmp<T>) {
    && (forall a, b :: cmp(a, b) <= 0 || cmp(b, a) <= 0)
    && forall a, b, c :: cmp(a, b) <= 0 && cmp(b, c) <= 0 ==> cmp(a, c) <= 0
  }

  /** Two runs into one; on a tie the first run goes first. */
  ghost function Merge<T(!new)>(cmp: Cmp<T>, xs: seq<ListHead<T>>, ys: seq<ListHead<T>>): seq<ListHead<T>>
    decreases |xs| + |ys|
  {
    if xs == [] then ys
    else if ys == [] then xs
    else if Leq(cmp, xs[0], ys[0]) then [xs[0]] + Merge(cmp, xs[1..], ys)
    else [ys[0]] + Merge(cmp, xs, ys[1..])
  }

  function Least(x: nat, y: nat): nat {
    if x < y then x else y
  }

  /** One pass: neighbouring runs of k are merged pairwise. */
  ghost function Pass<T(!new)>(cmp: Cmp<T>, ns: seq<ListHead<T>>, k: nat): seq<ListHead<T>>
    requires k > 0
    decreases |ns|
  {
    if ns == [] then []
    else
      var i := Least(k, |ns|);
      var rest := ns[i..];
      var j := Least(k, |rest|);
      Merge(cmp, ns[..i], rest[..j]) + Pass(cmp, rest[j..], k)
  }

  /** The number of merges a pass performs. */
  function Merges(n: nat, k: nat): nat
    requires k > 0
    decreases n
  {
    if n == 0 then 0 else 1 + Merges(if n <= 2 * k then 0 else n - 2 * k, k)
  }

  ghost function SortFrom<T(!new)>(cmp: Cmp<T>, ns: seq<ListHead<T>>, k: nat): seq<ListHead<T>>
    requires k > 0
    decreases if |ns| > 2 * k then |ns| - 2 * k else 0
  {
    var r := Pass(cmp, ns, k);
    PassLength(cmp, ns, k);
    if |ns| <= 2 * k then r else SortFrom(cmp, r, 2 * k)
  }

  // ---------------------------------------------------------------- lengths and contents

  lemma MergeUnfold<T(!new)>(cmp: Cmp<T>, xs: seq<ListHead<T>>, ys: seq<ListHead<T>>)
    ensures xs == [] ==> Merge(cmp, xs, ys) == ys
    ensures ys == [] ==> Merge(cmp, xs, ys) == xs
    ensures xs != [] && ys != [] ==>
              Merge(cmp, xs, ys) == if Leq(cmp, xs[0], ys[0]) then [xs[0]] + Merge(cmp, xs[1..], ys)
                                    else [ys[0]] + Merge(cmp, xs, ys[1..])
  {
  }

  lemma {:induction false} MergePermutes<T(!new)>(cmp: Cmp<T>, xs: seq<ListHead<T>>, ys: seq<ListHead<T>>)
    ensures multiset(Merge(cmp, xs, ys)) == multiset(xs + ys)
    ensures |Merge(cmp, xs, ys)| == |xs| + |ys|
    decreases |xs| + |ys|
  {
    hide Leq, Merge;
    MergeUnfold(cmp, xs, ys);
    if xs == [] {
      assert xs + ys == ys;
    } else if ys == [] {
      assert xs + ys == xs;
    } else if Leq(cmp, xs[0], ys[0]) {
      MergePermutes(cmp, xs[1..], ys);
      assert xs + ys == [xs[0]] + (xs[1..] + ys);
    } else {
      MergePermutes(cmp, xs, ys[1..]);
      assert ys == [ys[0]] + ys[1..];
      assert multiset(xs + ys) == multiset{ys[0]} + multiset(xs + ys[1..]);
    }
  }

  lemma {:induction false} PassLength<T(!new)>(cmp: Cmp<T>, ns: seq<ListHead<T>>, k: nat)
    requires k > 0
    ensures |Pass(cmp, ns, k)| == |ns|
    decreases |ns|
  {
    if ns != [] {
      var i := Least(k, |ns|);
      var rest := ns[i..];
      var j := Least(k, |rest|);
      MergePermutes(cmp, ns[..i], rest[..j]);
      PassLength(cmp, rest[j..], k);
    }
  }

  lemma {:induction false} OneMerge(n: nat, k: nat)
    requires k > 0
    ensures n > 0 ==> (Merges(n, k) <= 1 <==> n <= 2 * k)
  {
    if n > 2 * k {
      assert Merges(n - 2 * k, k) >= 1;
    }
  }

  // ---------------------------------------------------------------- stability

  /** a stands before b in o. */
  ghost predicate Before<A>(o: seq<A>, a: A, b: A) {
    exists u, v | 0 <= u < v < |o| :: o[u] == a && o[v] == b
  }

  /** a may stand before b in a stable sort of o. */
  ghost predicate Ordered<T(!new)>(cmp: Cmp<T>, o: seq<ListHead<T>>, a: ListHead<T>, b: ListHead<T>) {
    Leq(cmp, a, b) && (Leq(cmp, b, a) ==> Before(o, a, b))
  }

  /** s is o, sorted by cmp, with equal members in their order in o. */
  ghost predicate StableSort<T(!new)>(cmp: Cmp<T>, o: seq<ListHead<T>>, s: seq<ListHead<T>>) {
    && multiset(s) == multiset(o)
    && forall i, j | 0 <= i < j < |s| :: Ordered(cmp, o, s[i], s[j])
  }

  /** The k-blocks of ns are stable sorts of the k-blocks of o. */
  ghost predicate Runs<T(!new)>(cmp: Cmp<T>, o: seq<ListHead<T>>, ns: seq<ListHead<T>>, k: nat)
    requires k > 0
    decreases |ns|
  {
    && |o| == |ns|
    && if |ns| <= k then StableSort(cmp, o, ns)
       else StableSort(cmp, o[..k], ns[..k]) && Runs(cmp, o[k..], ns[k..], k)
  }

  lemma BeforeLeft<A>(o: seq<A>, p: seq<A>, a: A, b: A)
    requires Before(o, a, b)
    ensures Before(o + p, a, b)
  {
    var u, v :| 0 <= u < v < |o| && o[u] == a && o[v] == b;
    assert (o + p)[u] == a && (o + p)[v] == b;
  }

  lemma BeforeRight<A>(o: seq<A>, p: seq<A>, a: A, b: A)
    requires Before(p, a, b)
    ensures Before(o + p, a, b)
  {
    var u, v :| 0 <= u < v < |p| && p[u] == a && p[v] == b;
    assert (o + p)[|o| + u] == a && (o + p)[|o| + v] == b;
  }

  lemma BeforeAcross<A>(o: seq<A>, p: seq<A>, a: A, b: A)
    requires a in o && b in p
    ensures Before(o + p, a, b)
  {
    var u :| 0 <= u < |o| && o[u] == a;
    var v :| 0 <= v < |p| && p[v] == b;
    assert (o + p)[u] == a && (o + p)[|o| + v] == b;
  }

  /** xs and ys are sorted within o, and whatever xs holds stands before whatever ys holds. */
  ghost predicate Mergeable<T(!new)>(cmp: Cmp<T>, o: seq<ListHead<T>>, xs: seq<ListHead<T>>, ys: seq<ListHead<T>>) {
    && (forall i, j | 0 <= i < j < |xs| :: Ordered(cmp, o, xs[i], xs[j]))
    && (forall i, j | 0 <= i < j < |ys| :: Ordered(cmp, o, ys[i], ys[j]))
    && forall i, j | 0 <= i < |xs| && 0 <= j < |ys| :: Before(o, xs[i], ys[j])
  }

  lemma {:induction false} MergeMembers<T(!new)>(cmp: Cmp<T>, xs: seq<ListHead<T>>, ys: seq<ListHead<T>>)
    ensures forall k | 0 <= k < |Merge(cmp, xs, ys)| :: Merge(cmp, xs, ys)[k] in xs || Merge(cmp, xs, ys)[k] in ys
  {
    MergePermutes(cmp, xs, ys);
    forall k | 0 <= k < |Merge(cmp, xs, ys)|
      ensures Merge(cmp, xs, ys)[k] in xs || Merge(cmp, xs, ys)[k] in ys
    {
      assert Merge(cmp, xs, ys)[k] in multiset(Merge(cmp, xs, ys));
      assert Merge(cmp, xs, ys)[k] in xs + ys;
    }
  }

  /** Merging keeps the stable order. */
  lemma {:induction false} MergeOrdered<T(!new)>(cmp: Cmp<T>, o: seq<ListHead<T>>, xs: seq<ListHead<T>>,
                                                 ys: seq<ListHead<T>>)
    requires TotalPreorder(cmp) && Mergeable(cmp, o, xs, ys)
    ensures forall i, j | 0 <= i < j < |Merge(cmp, xs, ys)| ::
              Ordered(cmp, o, Merge(cmp, xs, ys)[i], Merge(cmp, xs, ys)[j])
    decreases |xs| + |ys|
  {
    if xs != [] && ys != [] {
      if Leq(cmp, xs[0], ys[0]) {
        MergeOrdered(cmp, o, xs[1..], ys);
        HeadFirst(cmp, o, xs[0], xs[1..], ys);
      } else {
        MergeOrdered(cmp, o, xs, ys[1..]);
        HeadFirstRight(cmp, o, ys[0], xs, ys[1..]);
      }
    }
  }

  lemma HeadFirst<T(!new)>(cmp: Cmp<T>, o: seq<ListHead<T>>, x: ListHead<T>, xs: seq<ListHead<T>>, ys: seq<ListHead<T>>)
    requires TotalPreorder(cmp) && Mergeable(cmp, o, [x] + xs, ys) && ys != [] && Leq(cmp, x, ys[0])
    ensures forall k | 0 <= k < |Merge(cmp, xs, ys)| :: Ordered(cmp, o, x, Merge(cmp, xs, ys)[k])
  {
    MergeMembers(cmp, xs, ys);
    forall k | 0 <= k < |Merge(cmp, xs, ys)|
      ensures Ordered(cmp, o, x, Merge(cmp, xs, ys)[k])
    {
      var z := Merge(cmp, xs, ys)[k];
      if z in xs {
        var i :| 0 <= i < |xs| && xs[i] == z;
        assert Ordered(cmp, o, ([x] + xs)[0], ([x] + xs)[i + 1]);
      } else {
        var j :| 0 <= j < |ys| && ys[j] == z;
        assert Before(o, ([x] + xs)[0], ys[j]);
        if j > 0 {
          assert Ordered(cmp, o, ys[0], ys[j]);
        }
      }
    }
  }

  lemma HeadFirstRight<T(!new)>(cmp: Cmp<T>, o: seq<ListHead<T>>, y: ListHead<T>, xs: seq<ListHead<T>>,
                                ys: seq<ListHead<T>>)
    requires TotalPreorder(cmp) && Mergeable(cmp, o, xs, [y] + ys) && xs != [] && !Leq(cmp, xs[0], y)
    ensures forall k | 0 <= k < |Merge(cmp, xs, ys)| :: Ordered(cmp, o, y, Merge(cmp, xs, ys)[k])
  {
    MergeMembers(cmp, xs, ys);
    forall k | 0 <= k < |Merge(cmp, xs, ys)|
      ensures Ordered(cmp, o, y, Merge(cmp, xs, ys)[k])
    {
      var z := Merge(cmp, xs, ys)[k];
      if z in ys {
        var i :| 0 <= i < |ys| && ys[i] == z;
        assert Ordered(cmp, o, ([y] + ys)[0], ([y] + ys)[i + 1]);
      } else {
        var j :| 0 <= j < |xs| && xs[j] == z;
        if j > 0 {
          assert Ordered(cmp, o, xs[0], xs[j]);
        }
        StrictlyAbove(cmp, y, xs[0], z);
      }
    }
  }

  lemma StrictlyAbove<T(!new)>(cmp: Cmp<T>, y: ListHead<T>, x: ListHead<T>, z: ListHead<T>)
    requires TotalPreorder(cmp) && !Leq(cmp, x, y) && Leq(cmp, x, z)
    ensures Leq(cmp, y, z) && !Leq(cmp, z, y)
  {
  }

  lemma MergeStable<T(!new)>(cmp: Cmp<T>, o: seq<ListHead<T>>, p: seq<ListHead<T>>, xs: seq<ListHead<T>>,
                             ys: seq<ListHead<T>>)
    requires TotalPreorder(cmp) && StableSort(cmp, o, xs) && StableSort(cmp, p, ys)
    ensures StableSort(cmp, o + p, Merge(cmp, xs, ys))
  {
    forall i, j | 0 <= i < j < |xs|
      ensures Ordered(cmp, o + p, xs[i], xs[j])
    {
      assert Ordered(cmp, o, xs[i], xs[j]);
      if Leq(cmp, xs[j], xs[i]) {
        BeforeLeft(o, p, xs[i], xs[j]);
      }
    }
    forall i, j | 0 <= i < j < |ys|
      ensures Ordered(cmp, o + p, ys[i], ys[j])
    {
      assert Ordered(cmp, p, ys[i], ys[j]);
      if Leq(cmp, ys[j], ys[i]) {
        BeforeRight(o, p, ys[i], ys[j]);
      }
    }
    forall i, j | 0 <= i < |xs| && 0 <= j < |ys|
      ensures Before(o + p, xs[i], ys[j])
    {
      assert xs[i] in multiset(xs) && ys[j] in multiset(ys);
      BeforeAcross(o, p, xs[i], ys[j]);
    }
    MergeOrdered(cmp, o + p, xs, ys);
    MergePermutes(cmp, xs, ys);
  }

  lemma {:induction false} SingleRuns<T(!new)>(cmp: Cmp<T>, ns: seq<ListHead<T>>)
    ensures Runs(cmp, ns, ns, 1)
  {
    if |ns| > 1 {
      SingleRuns(cmp, ns[1..]);
    }
  }

  lemma EmptyStable<T(!new)>(cmp: Cmp<T>)
    ensures StableSort(cmp, [], [])
  {
  }

  lemma PassUnfold<T(!new)>(cmp: Cmp<T>, ns: seq<ListHead<T>>, k: nat)
    requires k > 0
    ensures Pass(cmp, [], k) == []
    ensures var i := Least(k, |ns|);
            var rest := ns[i..];
            var j := Least(k, |rest|);
            Pass(cmp, ns, k) == Merge(cmp, ns[..i], rest[..j]) + Pass(cmp, rest[j..], k)
  {
    hide Merge;
    if ns == [] {
      assert Merge(cmp, [], []) == [] by { MergePermutes(cmp, [], []); }
    }
  }

  /** The last, or only, pair of runs. */
  lemma LastPair<T(!new)>(cmp: Cmp<T>, o: seq<ListHead<T>>, ns: seq<ListHead<T>>, k: nat)
    requires k > 0 && TotalPreorder(cmp) && Runs(cmp, o, ns, k) && |ns| <= 2 * k
    ensures StableSort(cmp, o, Pass(cmp, ns, k))
  {
    hide StableSort, TotalPreorder, Merge;
    var i := Least(k, |ns|);
    var rest, orest := ns[i..], o[i..];
    var j := Least(k, |rest|);
    RunHead(cmp, o, ns, k);
    RunHead(cmp, orest, rest, k);
    MergeStable(cmp, o[..i], orest[..j], ns[..i], rest[..j]);
    PassUnfold(cmp, ns, k);
    PassUnfold(cmp, [], k);
    assert rest[j..] == [] && o[..i] + orest[..j] == o;
    var m := Merge(cmp, ns[..i], rest[..j]);
    assert m + [] == m;
  }

  /** A pass over runs of k leaves runs of 2k. */
  lemma {:induction false} PassDoublesRuns<T(!new)>(cmp: Cmp<T>, o: seq<ListHead<T>>, ns: seq<ListHead<T>>, k: nat)
    requires k > 0 && TotalPreorder(cmp) && Runs(cmp, o, ns, k)
    ensures Runs(cmp, o, Pass(cmp, ns, k), 2 * k)
    decreases |ns|
  {
    hide StableSort, TotalPreorder, Merge, Pass;
    PassLength(cmp, ns, k);
    if |ns| <= 2 * k {
      LastPair(cmp, o, ns, k);
    } else {
      var rest, orest := ns[k..], o[k..];
      RunHead(cmp, o, ns, k);
      RunHead(cmp, orest, rest, k);
      MergeStable(cmp, o[..k], orest[..k], ns[..k], rest[..k]);
      MergePermutes(cmp, ns[..k], rest[..k]);
      PassUnfold(cmp, ns, k);
      PassDoublesRuns(cmp, orest[k..], rest[k..], k);
      var m, r := Merge(cmp, ns[..k], rest[..k]), Pass(cmp, ns, k);
      assert r[..2 * k] == m && r[2 * k..] == Pass(cmp, rest[k..], k);
      TwoBlocks(o, k);
    }
  }

  lemma TwoBlocks<A>(s: seq<A>, k: nat)
    requires 2 * k <= |s|
    ensures s[k..][k..] == s[2 * k..] && s[..k] + s[k..][..k] == s[..2 * k]
  {
  }

  lemma RunHead<T(!new)>(cmp: Cmp<T>, o: seq<ListHead<T>>, ns: seq<ListHead<T>>, k: nat)
    requires k > 0 && Runs(cmp, o, ns, k)
    ensures var j := Least(k, |ns|);
            |o| == |ns| && StableSort(cmp, o[..j], ns[..j]) && Runs(cmp, o[j..], ns[j..], k)
  {
    if |ns| <= k {
      assert o[..|o|] == o && ns[..|ns|] == ns && o[|o|..] == [] && ns[|ns|..] == [];
      EmptyStable(cmp);
    }
  }

  /** Repeated passes sort, stably, the sequence they started from. */
  lemma {:induction false} SortFromStable<T(!new)>(cmp: Cmp<T>, o: seq<ListHead<T>>, ns: seq<ListHead<T>>, k: nat)
    requires k > 0 && TotalPreorder(cmp) && Runs(cmp, o, ns, k)
    ensures StableSort(cmp, o, SortFrom(cmp, ns, k))
    decreases if |ns| > 2 * k then |ns| - 2 * k else 0
  {
    PassDoublesRuns(cmp, o, ns, k);
    PassLength(cmp, ns, k);
    if |ns| > 2 * k {
      SortFromStable(cmp, o, Pass(cmp, ns, k), 2 * k);
    }
  }

  /** The sort of the whole list. */
  lemma MergesortSorts<T(!new)>(cmp: Cmp<T>, ns: seq<ListHead<T>>)
    requires TotalPreorder(cmp)
    ensures StableSort(cmp, ns, SortFrom(cmp, ns, 1))
  {
    SingleRuns(cmp, ns);
    SortFromStable(cmp, ns, ns, 1);
  }
}
