/** CoreMark's in-place, iterative mergesort of a singly linked list (core_list_join.c). */
module Mergesort {
  import opened MergeSpec
  import opened Perm

  /** The nodes of ns point to one another in order. */
  ghost predicate Linked<T(!new)>(ns: seq<ListHead<T>>)
    reads ns
  {
    forall i | 0 <= i < |ns| - 1 :: ns[i].next == ns[i + 1]
  }

  /** p is a NULL-terminated list of exactly the nodes ns. */
  ghost predicate IsList<T(!new)>(p: ListHead?<T>, ns: seq<ListHead<T>>)
    reads ns
  {
    if ns == [] then p == null
    else p == ns[0] && Linked(ns) && ns[|ns| - 1].next == null
  }

  /** The merged part: head and tail, linked from one to the other; the tail's own link is not yet valid. */
  ghost predicate IsPrefix<T(!new)>(list: ListHead?<T>, tail: ListHead?<T>, out: seq<ListHead<T>>)
    reads out
  {
    if out == [] then list == null && tail == null
    else list == out[0] && tail == out[|out| - 1] && Linked(out)
  }

  /** A run: p is its first node (when there is one), linked up to its last. */
  ghost predicate IsRun<T(!new)>(p: ListHead?<T>, xs: seq<ListHead<T>>)
    reads xs
  {
    xs != [] ==> p == xs[0] && Linked(xs)
  }

  ghost predicate Disjoint<T(!new)>(out: seq<ListHead<T>>, xs: seq<ListHead<T>>, ys: seq<ListHead<T>>) {
    && Distinct(out) && Distinct(xs) && Distinct(ys)
    && (forall i, j | 0 <= i < |out| && 0 <= j < |xs| :: out[i] != xs[j])
    && (forall i, j | 0 <= i < |out| && 0 <= j < |ys| :: out[i] != ys[j])
    && (forall i, j | 0 <= i < |xs| && 0 <= j < |ys| :: xs[i] != ys[j])
  }

  /**
   * The state of one merge: xs is left of the first run, ys is everything from q on, qs of which may still be taken.
   */
  ghost predicate Merging<T(!new)>(nodes: set<ListHead<T>>, list: ListHead?<T>, tail: ListHead?<T>,
                                   out: seq<ListHead<T>>, p: ListHead?<T>, xs: seq<ListHead<T>>, q: ListHead?<T>,
                                       ys: seq<ListHead<T>>)
    reads out, xs, ys
  {
    && IsPrefix(list, tail, out) && IsRun(p, xs) && IsList(q, ys) && Disjoint(out, xs, ys)
    && (forall n | n in out :: n in nodes) && (forall n | n in xs :: n in nodes) && forall n | n in ys :: n in nodes
  }

  /** core_list_join.c:472-478: link e behind the tail. */
  method Append<T(!new)>(list: ListHead?<T>, tail: ListHead?<T>, e: ListHead<T>, ghost nodes: set<ListHead<T>>,
                         ghost out: seq<ListHead<T>>)
    returns (list': ListHead?<T>, tail': ListHead?<T>)
    requires IsPrefix(list, tail, out) && e !in out && Distinct(out) && forall n | n in out :: n in nodes
    modifies nodes`next
    ensures IsPrefix(list', tail', out + [e])
    ensures forall n | n in nodes && n != tail :: n.next == old(n.next)
    ensures out == [] ==> tail == null
    ensures out != [] ==> tail == out[|out| - 1]
  {
    list' := list;
    if tail != null {
      tail.next := e;
    } else {
      list' := e;
    }
    tail' := e;
  }

  lemma DisjointLeft<T(!new)>(out: seq<ListHead<T>>, xs: seq<ListHead<T>>, ys: seq<ListHead<T>>)
    requires Disjoint(out, xs, ys) && xs != []
    ensures Disjoint(out + [xs[0]], xs[1..], ys) && xs[0] !in out
  {
  }

  lemma DisjointRight<T(!new)>(out: seq<ListHead<T>>, xs: seq<ListHead<T>>, ys: seq<ListHead<T>>)
    requires Disjoint(out, xs, ys) && ys != []
    ensures Disjoint(out + [ys[0]], xs, ys[1..]) && ys[0] !in out
  {
  }

  /** core_list_join.c:459 and 472-478: the first node of the left run goes to the end of the merged part. */
  method TakeLeft<T(!new)>(list0: ListHead?<T>, tail0: ListHead?<T>, p0: ListHead<T>, q: ListHead?<T>,
                           ghost nodes: set<ListHead<T>>, ghost out: seq<ListHead<T>>, ghost xs: seq<ListHead<T>>,
                             ghost ys: seq<ListHead<T>>)
    returns (list: ListHead?<T>, tail: ListHead?<T>, p: ListHead?<T>)
    requires Merging(nodes, list0, tail0, out, p0, xs, q, ys) && xs != []
    modifies nodes`next
    ensures Merging(nodes, list, tail, out + [xs[0]], p, xs[1..], q, ys)
  {
    hide Disjoint;
    DisjointLeft(out, xs, ys);
    LeftApart(out, xs, ys);
    var e := p0;
    p := p0.next;
    list, tail := Append(list0, tail0, e, nodes, out);
    RunTail(p, xs);
  }

  lemma RunTail<T(!new)>(p: ListHead?<T>, xs: seq<ListHead<T>>)
    requires xs != [] && Linked(xs) && p == xs[0].next
    ensures IsRun(p, xs[1..])
  {
  }

  lemma ListTail<T(!new)>(q: ListHead<T>, ys: seq<ListHead<T>>)
    requires IsList(q, ys)
    ensures ys != [] && IsList(q.next, ys[1..])
  {
  }

  lemma LeftApart<T(!new)>(out: seq<ListHead<T>>, xs: seq<ListHead<T>>, ys: seq<ListHead<T>>)
    requires Disjoint(out, xs, ys)
    ensures Distinct(out)
    ensures out != [] ==> out[|out| - 1] !in xs && out[|out| - 1] !in ys
  {
  }

  /** core_list_join.c:462 and 472-478: the same for the right run. */
  method TakeRight<T(!new)>(list0: ListHead?<T>, tail0: ListHead?<T>, p: ListHead?<T>, q0: ListHead<T>,
                            ghost nodes: set<ListHead<T>>, ghost out: seq<ListHead<T>>, ghost xs: seq<ListHead<T>>,
                              ghost ys: seq<ListHead<T>>)
    returns (list: ListHead?<T>, tail: ListHead?<T>, q: ListHead?<T>)
    requires Merging(nodes, list0, tail0, out, p, xs, q0, ys)
    modifies nodes`next
    ensures ys != [] && Merging(nodes, list, tail, out + [ys[0]], p, xs, q, ys[1..])
  {
    hide Disjoint;
    DisjointRight(out, xs, ys);
    LeftApart(out, xs, ys);
    var e := q0;
    q := q0.next;
    ListTail(q0, ys);
    ListMembers(ys);
    list, tail := Append(list0, tail0, e, nodes, out);
  }

  lemma ListMembers<T(!new)>(ys: seq<ListHead<T>>)
    ensures forall n | ys != [] && n in ys[1..] :: n in ys
  {
  }

  /** core_list_join.c:455-479: merge psize nodes at p with up to qsize nodes at q. */
  method MergeRuns<T(!new)>(cmp: Cmp<T>, list0: ListHead?<T>, tail0: ListHead?<T>, p0: ListHead?<T>, psize0: nat,
                            q0: ListHead?<T>, qsize0: nat, ghost nodes: set<ListHead<T>>, ghost out0: seq<ListHead<T>>,
                                ghost xs0: seq<ListHead<T>>, ghost ys0: seq<ListHead<T>>)
    returns (list: ListHead?<T>, tail: ListHead?<T>, q: ListHead?<T>)
    requires Merging(nodes, list0, tail0, out0, p0, xs0, q0, ys0) && psize0 == |xs0|
    modifies nodes`next
    ensures var j := Least(qsize0, |ys0|);
            Merging(nodes, list, tail, out0 + Merge(cmp, xs0, ys0[..j]), null, [], q, ys0[j..])
  {
    hide Merge, Merging;
    list, tail, q := list0, tail0, q0;
    var p, psize: nat, qsize: nat := p0, psize0, qsize0;
    ghost var out: seq<ListHead<T>>, xs: seq<ListHead<T>>, ys: seq<ListHead<T>> := out0, xs0, ys0;
    ghost var all := Remaining(cmp, out, xs, ys, qsize);
    ghost var rest := ys[Least(qsize, |ys|)..];
    while psize > 0 || (qsize > 0 && q != null)
      invariant psize == |xs| && Merging(nodes, list, tail, out, p, xs, q, ys)
      invariant Remaining(cmp, out, xs, ys, qsize) == all && ys[Least(qsize, |ys|)..] == rest
      decreases psize + qsize
    {
      Heads(nodes, list, tail, out, p, xs, q, ys);
      RemainingStep(cmp, out, xs, ys, qsize);
      if psize == 0 {
        list, tail, q := TakeRight(list, tail, p, q, nodes, out, xs, ys);
        out, ys, qsize := out + [ys[0]], ys[1..], qsize - 1;
      } else if qsize == 0 || q == null {
        list, tail, p := TakeLeft(list, tail, p, q, nodes, out, xs, ys);
        out, xs, psize := out + [xs[0]], xs[1..], psize - 1;
      } else if cmp(p.info, q.info) <= 0 {
        list, tail, p := TakeLeft(list, tail, p, q, nodes, out, xs, ys);
        out, xs, psize := out + [xs[0]], xs[1..], psize - 1;
      } else {
        list, tail, q := TakeRight(list, tail, p, q, nodes, out, xs, ys);
        out, ys, qsize := out + [ys[0]], ys[1..], qsize - 1;
      }
    }
    Heads(nodes, list, tail, out, p, xs, q, ys);
    RemainingStep(cmp, out, xs, ys, qsize);
    NothingLeft(nodes, list, tail, out, p, q, ys);
  }

  /** What the merged list will be once both runs are used up. */
  ghost function Remaining<T(!new)>(cmp: Cmp<T>, out: seq<ListHead<T>>, xs: seq<ListHead<T>>, ys: seq<ListHead<T>>,
                                    qsize: nat): seq<ListHead<T>> {
    out + Merge(cmp, xs, ys[..Least(qsize, |ys|)])
  }

  lemma Heads<T(!new)>(nodes: set<ListHead<T>>, list: ListHead?<T>, tail: ListHead?<T>, out: seq<ListHead<T>>,
                       p: ListHead?<T>, xs: seq<ListHead<T>>, q: ListHead?<T>, ys: seq<ListHead<T>>)
    requires Merging(nodes, list, tail, out, p, xs, q, ys)
    ensures xs != [] ==> p == xs[0]
    ensures if ys == [] then q == null else q == ys[0]
  {
  }

  lemma NothingLeft<T(!new)>(nodes: set<ListHead<T>>, list: ListHead?<T>, tail: ListHead?<T>, out: seq<ListHead<T>>,
                             p: ListHead?<T>, q: ListHead?<T>, ys: seq<ListHead<T>>)
    requires Merging(nodes, list, tail, out, p, [], q, ys)
    ensures Merging(nodes, list, tail, out, null, [], q, ys)
  {
  }

  /** Moving the smaller head to the output changes nothing about the result. */
  lemma RemainingStep<T(!new)>(cmp: Cmp<T>, out: seq<ListHead<T>>, xs: seq<ListHead<T>>, ys: seq<ListHead<T>>,
                               qsize: nat)
    ensures xs == [] && (qsize == 0 || ys == []) ==> Remaining(cmp, out, xs, ys, qsize) == out
    ensures xs == [] && qsize > 0 && ys != [] ==> RightSame(cmp, out, xs, ys, qsize)
    ensures xs != [] && (qsize == 0 || ys == []) ==> LeftSame(cmp, out, xs, ys, qsize)
    ensures xs != [] && qsize > 0 && ys != [] ==>
              if Leq(cmp, xs[0], ys[0]) then LeftSame(cmp, out, xs, ys, qsize) else RightSame(cmp, out, xs, ys, qsize)
  {
    hide Merge;
    var m := Least(qsize, |ys|);
    var taken := ys[..m];
    MergeUnfold(cmp, xs, taken);
    if xs != [] && m > 0 {
      assert taken[0] == ys[0];
    }
    if m > 0 {
      assert ys[1..][..m - 1] == taken[1..] && ys[1..][m - 1..] == ys[m..];
      MergeUnfold(cmp, xs, taken[1..]);
    }
    if xs != [] {
      MergeUnfold(cmp, xs[1..], taken);
    }
    Append3(out, if xs != [] then [xs[0]] else [], if xs != [] then Merge(cmp, xs[1..], taken) else []);
    Append3(out, if m > 0 then [ys[0]] else [], if m > 0 then Merge(cmp, xs, taken[1..]) else []);
    assert xs == [] && m > 0 ==> taken == [ys[0]] + taken[1..];
    assert xs != [] ==> xs == [xs[0]] + xs[1..];
  }

  lemma Append3<A>(a: seq<A>, b: seq<A>, c: seq<A>)
    ensures a + (b + c) == (a + b) + c
  {
  }

  ghost predicate LeftSame<T(!new)>(cmp: Cmp<T>, out: seq<ListHead<T>>, xs: seq<ListHead<T>>, ys: seq<ListHead<T>>,
                                    qsize: nat)
    requires xs != []
  {
    Remaining(cmp, out + [xs[0]], xs[1..], ys, qsize) == Remaining(cmp, out, xs, ys, qsize)
  }

  ghost predicate RightSame<T(!new)>(cmp: Cmp<T>, out: seq<ListHead<T>>, xs: seq<ListHead<T>>, ys: seq<ListHead<T>>,
                                     qsize: nat)
    requires ys != [] && qsize > 0
  {
    && Remaining(cmp, out + [ys[0]], xs, ys[1..], qsize - 1) == Remaining(cmp, out, xs, ys, qsize)
    && ys[1..][Least(qsize - 1, |ys| - 1)..] == ys[Least(qsize, |ys|)..]
  }

  /** core_list_join.c:441-448: q finds the start of the right run, insize nodes on or at the end. */
  method StepAlong<T(!new)>(p: ListHead<T>, insize: nat, ghost rest: seq<ListHead<T>>)
    returns (q: ListHead?<T>, psize: nat)
    requires insize > 0 && IsList(p, rest)
    ensures psize == Least(insize, |rest|) && IsList(q, rest[psize..])
  {
    q, psize := p, 0;
    var i := 0;
    while i < insize
      invariant 0 <= i == psize <= insize && psize <= |rest| && IsList(q, rest[psize..])
      invariant q != null || i == insize
    {
      ListTail(q, rest[psize..]);
      assert rest[psize..][1..] == rest[psize + 1..];
      psize := psize + 1;
      q := q.next;
      if q == null {
        break;
      }
      i := i + 1;
    }
  }

  /** The next psize nodes of the input become the first run. */
  lemma SplitRun<T(!new)>(nodes: set<ListHead<T>>, list: ListHead?<T>, tail: ListHead?<T>, out: seq<ListHead<T>>,
                          p: ListHead?<T>, q: ListHead?<T>, rest: seq<ListHead<T>>, psize: nat)
    requires Merging(nodes, list, tail, out, null, [], p, rest) && psize <= |rest| && IsList(q, rest[psize..])
    ensures Merging(nodes, list, tail, out, p, rest[..psize], q, rest[psize..])
  {
  }

  lemma PassStep<T(!new)>(cmp: Cmp<T>, out: seq<ListHead<T>>, rest: seq<ListHead<T>>, k: nat)
    requires k > 0 && rest != []
    ensures var i := Least(k, |rest|);
            var ys := rest[i..];
            var j := Least(k, |ys|);
            && out + Merge(cmp, rest[..i], ys[..j]) + Pass(cmp, ys[j..], k) == out + Pass(cmp, rest, k)
            && 1 + Merges(|ys[j..]|, k) == Merges(|rest|, k)
  {
    hide Merge, Pass;
    PassUnfold(cmp, rest, k);
  }

  /**
   * core_list_join.c:433-484: one pass over the list, merging runs of insize pairwise. Not ok: the write of line 484
   * goes through a null tail.
   */
  method MergePass<T(!new)>(cmp: Cmp<T>, list0: ListHead?<T>, insize: nat, ghost nodes: set<ListHead<T>>,
                            ghost ns: seq<ListHead<T>>)
    returns (list: ListHead?<T>, nmerges: nat, ok: bool)
    requires insize > 0 && IsList(list0, ns) && Distinct(ns) && forall n | n in ns :: n in nodes
    modifies nodes`next
    ensures ok <==> list0 != null
    ensures ok ==> IsList(list, Pass(cmp, ns, insize)) && Distinct(Pass(cmp, ns, insize))
    ensures ok ==> nmerges == Merges(|ns|, insize)
    ensures ok ==> forall n | n in Pass(cmp, ns, insize) :: n in nodes
  {
    hide Merge, Merging, Pass, Merges, Distinct, IsList;
    var p: ListHead?<T> := list0;
    var head: ListHead?<T>, tail: ListHead?<T> := null, null;
    nmerges := 0;
    ghost var out: seq<ListHead<T>>, rest: seq<ListHead<T>> := [], ns;
    PassBegins(cmp, nodes, p, ns, insize);
    while p != null
      invariant Merging(nodes, head, tail, out, null, [], p, rest)
      invariant out + Pass(cmp, rest, insize) == Pass(cmp, ns, insize)
      invariant nmerges + Merges(|rest|, insize) == Merges(|ns|, insize)
      decreases |rest|
    {
      Heads(nodes, head, tail, out, null, [], p, rest);
      nmerges := nmerges + 1;
      MergingList(nodes, head, tail, out, null, [], p, rest);
      var q, psize := StepAlong(p, insize, rest);
      SplitRun(nodes, head, tail, out, p, q, rest, psize);
      PassStep(cmp, out, rest, insize);
      ghost var xs, ys := rest[..psize], rest[psize..];
      head, tail, p := MergeRuns(cmp, head, tail, p, psize, q, insize, nodes, out, xs, ys);
      ghost var j := Least(insize, |ys|);
      out, rest := out + Merge(cmp, xs, ys[..j]), ys[j..];
    }
    Heads(nodes, head, tail, out, null, [], p, rest);
    list := head;
    if tail == null {
      EmptyPass(cmp, nodes, head, tail, out, p, rest, list0, ns, insize);
      return list, nmerges, false;
    }
    ok := true;
    PassEnds(cmp, nodes, head, tail, out, p, rest, list0, ns, insize);
    tail.next := null;
    PassResult(nodes, list, tail, out);
  }

  lemma PassBegins<T(!new)>(cmp: Cmp<T>, nodes: set<ListHead<T>>, p: ListHead?<T>, ns: seq<ListHead<T>>, k: nat)
    requires k > 0 && IsList(p, ns) && Distinct(ns) && forall n | n in ns :: n in nodes
    ensures ns == [] <==> p == null
    ensures Merging(nodes, null, null, [], null, [], p, ns)
    ensures [] + Pass(cmp, ns, k) == Pass(cmp, ns, k)
  {
  }

  lemma MergingList<T(!new)>(nodes: set<ListHead<T>>, list: ListHead?<T>, tail: ListHead?<T>, out: seq<ListHead<T>>,
                             p: ListHead?<T>, xs: seq<ListHead<T>>, q: ListHead?<T>, ys: seq<ListHead<T>>)
    requires Merging(nodes, list, tail, out, p, xs, q, ys)
    ensures IsList(q, ys)
  {
  }

  lemma EmptyPass<T(!new)>(cmp: Cmp<T>, nodes: set<ListHead<T>>, list: ListHead?<T>, tail: ListHead?<T>,
                           out: seq<ListHead<T>>, p: ListHead?<T>, rest: seq<ListHead<T>>, list0: ListHead?<T>,
                               ns: seq<ListHead<T>>, k: nat)
    requires k > 0 && Merging(nodes, list, tail, out, null, [], p, rest) && rest == [] && (ns == [] <==> list0 == null)
    requires out + Pass(cmp, rest, k) == Pass(cmp, ns, k) && tail == null
    ensures list0 == null
  {
    PassLength(cmp, ns, k);
    PassLength(cmp, rest, k);
  }

  lemma PassEnds<T(!new)>(cmp: Cmp<T>, nodes: set<ListHead<T>>, list: ListHead?<T>, tail: ListHead?<T>,
                          out: seq<ListHead<T>>, p: ListHead?<T>, rest: seq<ListHead<T>>, list0: ListHead?<T>,
                              ns: seq<ListHead<T>>, k: nat)
    requires k > 0 && Merging(nodes, list, tail, out, null, [], p, rest) && rest == [] && (ns == [] <==> list0 == null)
    requires out + Pass(cmp, rest, k) == Pass(cmp, ns, k) && tail != null
    ensures out == Pass(cmp, ns, k) != [] && list0 != null && list != null && tail in nodes && Merges(|rest|, k) == 0
    ensures IsPrefix(list, tail, out) && Distinct(out) && forall n | n in out :: n in nodes
  {
    PassLength(cmp, ns, k);
    PassUnfold(cmp, [], k);
    assert out + [] == out;
  }

  lemma PassResult<T(!new)>(nodes: set<ListHead<T>>, list: ListHead<T>, tail: ListHead<T>, out: seq<ListHead<T>>)
    requires out != [] && list == out[0] && tail == out[|out| - 1] && Linked(out) && tail.next == null
    ensures IsList(list, out)
  {
  }

  /**
   * core_list_join.c:426-496. Relinks the nodes of the list, none added and none lost, in the order SortFrom gives. The
   * null write happens exactly for the empty list.
   */
  method CoreListMergesort<T(!new)>(list0: ListHead?<T>, cmp: Cmp<T>, ghost ns: seq<ListHead<T>>)
    returns (list: ListHead?<T>, ok: bool)
    requires IsList(list0, ns) && Distinct(ns)
    modifies (set n | n in ns)`next
    ensures ok <==> list0 != null
    ensures ok ==> IsList(list, SortFrom(cmp, ns, 1))
  {
    hide IsList, Distinct, Pass;
    ghost var nodes := set n | n in ns;
    list := list0;
    var insize := 1;
    ghost var cur: seq<ListHead<T>> := ns;
    while true
      invariant insize >= 1 && IsList(list, cur) && Distinct(cur) && |cur| == |ns|
      invariant forall n | n in cur :: n in nodes
      invariant list == null <==> list0 == null
      invariant SortFrom(cmp, cur, insize) == SortFrom(cmp, ns, 1)
      decreases if |ns| > 2 * insize then |ns| - 2 * insize else 0
    {
      NullList(list, cur);
      var nmerges;
      list, nmerges, ok := MergePass(cmp, list, insize, nodes, cur);
      if !ok {
        return;
      }
      OneMerge(|cur|, insize);
      PassLength(cmp, cur, insize);
      NullList(list, Pass(cmp, cur, insize));
      if nmerges <= 1 {
        return;
      }
      cur := Pass(cmp, cur, insize);
      insize := insize * 2;
    }
  }

  lemma NullList<T(!new)>(p: ListHead?<T>, ns: seq<ListHead<T>>)
    requires IsList(p, ns)
    ensures ns == [] <==> p == null
  {
  }

  /** For every total preorder the relinked list is the stable sort of the original one. */
  lemma SortedList<T(!new)>(cmp: Cmp<T>, p: ListHead?<T>, ns: seq<ListHead<T>>)
    requires TotalPreorder(cmp) && IsList(p, SortFrom(cmp, ns, 1))
    ensures exists s :: IsList(p, s) && StableSort(cmp, ns, s)
  {
    MergesortSorts(cmp, ns);
  }

  /** core_list_join.c:394-403: relink the list backwards. */
  method CoreListReverse<T(!new)>(list0: ListHead?<T>, ghost ns: seq<ListHead<T>>) returns (list: ListHead?<T>)
    requires IsList(list0, ns) && Distinct(ns)
    modifies (set n | n in ns)`next
    ensures IsList(list, Reverse(ns))
  {
    hide Distinct, Reversing;
    list := null;
    var p: ListHead?<T> := list0;
    ghost var back, rest := [], ns;
    ReverseStart(ns);
    while p != null
      invariant IsList(p, rest) && IsList(list, back) && Reversing(ns, back, rest)
      decreases |rest|
    {
      ListTail(p, rest);
      ReverseStep(ns, back, rest);
      var tmp := p.next;
      p.next := list;
      list := p;
      p := tmp;
      back, rest := [rest[0]] + back, rest[1..];
    }
    ReverseOver(ns, back, rest);
  }

  /** The nodes of ns are those of back, turned round, and then rest. */
  ghost predicate Reversing<A>(ns: seq<A>, back: seq<A>, rest: seq<A>) {
    |ns| == |back| + |rest| && Distinct(ns) && ns[..|back|] == Reverse(back) && ns[|back|..] == rest
  }

  lemma ReverseStart<A>(ns: seq<A>)
    requires Distinct(ns)
    ensures Reversing(ns, [], ns)
  {
  }

  lemma ReverseStep<A>(ns: seq<A>, back: seq<A>, rest: seq<A>)
    requires Reversing(ns, back, rest) && rest != []
    ensures Reversing(ns, [rest[0]] + back, rest[1..]) && rest[0] in ns && rest[0] !in back && rest[0] !in rest[1..]
  {
    var k := |back|;
    assert ns[k] == rest[0];
    assert forall i | 0 <= i < k :: back[i] == Reverse(back)[k - 1 - i] == ns[k - 1 - i];
    assert forall i | 0 <= i < |rest| - 1 :: rest[1..][i] == ns[k + 1 + i];
    assert Reverse([rest[0]] + back) == Reverse(back) + [rest[0]];
    assert ns[..k + 1] == ns[..k] + [ns[k]];
  }

  lemma ReverseOver<A>(ns: seq<A>, back: seq<A>, rest: seq<A>)
    requires Reversing(ns, back, rest)
    ensures rest == [] ==> back == Reverse(ns)
  {
    assert ns[..|ns|] == ns;
  }

  ghost function Reverse<A>(s: seq<A>): (r: seq<A>)
    ensures |r| == |s| && forall i | 0 <= i < |s| :: r[i] == s[|s| - 1 - i]
  {
    if s == [] then [] else [s[|s| - 1]] + Reverse(s[..|s| - 1])
  }
}
