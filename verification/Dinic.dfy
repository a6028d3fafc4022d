/** Dinic's maximum flow (dinic.cc): in-place residual network, breadth-first levels, augmenting depth-first search. */
module Dinic {
  import opened Perm
  import opened FlowNetwork
  import opened LevelGraph

  /** dinic.cc:4 */
  const INF := 0x3f3f3f

  class Dinic {
    const n: nat
    var m: nat
    var s: int
    var t: int
    const edges: array<Edge>
    const head: array<int>
    const nxt: array<int>
    const d: array<int>
    const cur: array<int>
    const queue: array<int>
    const vis: array<bool>

    /** The arrays are separate and large enough. */
    ghost predicate Layout() {
      && head.Length == d.Length == cur.Length == queue.Length == vis.Length == n
      && nxt.Length == edges.Length
      && head != nxt && head != d && head != cur && head != queue
      && nxt != d && nxt != cur && nxt != queue
      && d != cur && d != queue && cur != queue
    }

    ghost function Graph(): seq<Edge>
      reads this, edges
      requires m <= edges.Length
    {
      edges[..m]
    }

    ghost predicate Valid()
      reads this, edges, head, nxt
    {
      && Layout() && m <= edges.Length
      && Network(Graph(), n) && Linked(Graph(), n, head[..], nxt[..])
    }

    /** dinic.cc:28-45 */
    constructor (n: nat)
      requires n >= 2
      ensures Valid() && this.n == n && Graph() == []
      ensures fresh(edges) && fresh(head) && fresh(nxt) && fresh(d) && fresh(cur) && fresh(queue) && fresh(vis)
      ensures var nold := (n - 2) / 2; edges.Length == (nold * nold + nold * 2) * 2
    {
      var nold := (n - 2) / 2;
      var maxm := (nold * nold + nold * 2) * 2;
      this.n := n;
      edges := new Edge[maxm];
      head := new int[n];
      nxt := new int[maxm];
      vis := new bool[n];
      d := new int[n];
      cur := new int[n];
      queue := new int[n];
      m := 0;
      new;
      for i := 0 to n
        invariant forall u | 0 <= u < i :: head[u] == -1
        invariant m == 0
      {
        head[i] := -1;
      }
    }

    /** dinic.cc:47-55 */
    method AddEdge(u: nat, v: nat, c: nat)
      requires Valid() && u < n && v < n && m + 2 <= edges.Length
      modifies this`m, edges, head, nxt
      ensures Valid()
      ensures Graph() == old(Graph()) + if c == 0 then [] else [Edge(u, v, c, 0), Edge(v, u, 0, 0)]
    {
      hide Network, Linked;
      ghost var E := Graph();
      if c == 0 {
        return;
      }
      Append(Edge(u, v, c, 0));
      Append(Edge(v, u, 0, 0));
      NetworkAppend(E, n, Edge(u, v, c, 0), Edge(v, u, 0, 0));
      assert Graph() == E + [Edge(u, v, c, 0), Edge(v, u, 0, 0)];
    }

    /** One of the two halves of AddEdge. */
    method Append(e: Edge)
      requires Layout() && m < edges.Length && e.from < n && Linked(Graph(), n, head[..], nxt[..])
      modifies this`m, edges, head, nxt
      ensures m == old(m) + 1 && Graph() == old(Graph()) + [e]
      ensures Linked(Graph(), n, head[..], nxt[..])
    {
      hide Linked;
      LinkedAppend(Graph(), n, head[..], nxt[..], e);
      ghost var E := Graph();
      edges[m] := e;
      nxt[m] := head[e.from];
      head[e.from] := m;
      m := m + 1;
      assert Graph() == E + [e];
    }

    /** What BFS leaves behind. */
    ghost predicate Searched()
      reads this, edges, vis, d
      requires Layout() && m <= edges.Length
    {
      && 0 <= s < n && vis[s] && d[s] == 0
      && Levelled(Graph(), n, vis[..], d[..]) && Reached(Graph(), s, vis[..], d[..]) && Gradual(Graph(), vis[..], d[..])
    }

    /** dinic.cc:57-75 */
    method BFS() returns (found: bool)
      requires Valid() && 0 <= s < n && 0 <= t < n
      modifies vis, d, queue
      ensures Valid() && Searched() && found == vis[t]
    {
      hide Network, Linked, SearchState, Levelled, Reached, Gradual;
      for i := 0 to n
        invariant forall v | 0 <= v < i :: !vis[v]
      {
        vis[i] := false;
      }
      var qf, qr := 0, 0;
      queue[qr] := s;
      qr := qr + 1;
      d[s] := 0;
      vis[s] := true;
      ghost var E := Graph();
      SearchStart(E, n, s, vis[..], d[..], queue[..qr]);
      while qf != qr
        invariant 0 <= qf <= qr <= n
        invariant SearchState(E, n, s, vis[..], d[..], queue[..qr], qf)
        decreases n - qf
      {
        var x := queue[qf];
        SearchBounds(E, n, s, vis[..], d[..], queue[..qr], qf);
        qf := qf + 1;
        qr := Expand(x, qf, qr);
      }
      SearchOver(E, n, s, vis[..], d[..], queue[..qr]);
      found := vis[t];
    }

    /** dinic.cc:65-72: scan the edges of x, the vertex just taken off the queue. */
    method Expand(x: int, qf: nat, qr0: nat) returns (qr: nat)
      requires Valid() && 0 <= x < n && 1 <= qf <= qr0 <= n && queue[qf - 1] == x
      requires SearchState(Graph(), n, s, vis[..], d[..], queue[..qr0], qf - 1)
      modifies vis, d, queue
      ensures qf <= qr <= n && SearchState(Graph(), n, s, vis[..], d[..], queue[..qr], qf)
    {
      hide Network, Linked, SearchState, Scanned;
      ghost var E := Graph();
      qr := qr0;
      var i := head[x];
      FirstEdge(E, n, head[..], nxt[..], x);
      while i != -1
        invariant qr0 <= qr <= n && queue[qf - 1] == x && -1 <= i < m
        invariant SearchState(E, n, s, vis[..], d[..], queue[..qr], qf - 1)
        invariant i >= 0 ==> E[i].from == x
        invariant Scanned(E, vis[..], d[..], x, i)
        decreases i
      {
        var e := edges[i];
        NextEdge(E, n, head[..], nxt[..], i);
        SearchBounds(E, n, s, vis[..], d[..], queue[..qr], qf - 1);
        SearchLevels(E, n, s, vis[..], d[..], queue[..qr], qf - 1, e.to);
        ghost var vis0, d0, q0 := vis[..], d[..], queue[..qr];
        if !vis[e.to] && e.cap > e.flow {
          SearchRoom(E, n, s, vis0, d0, q0, qf - 1, e.to);
          vis[e.to] := true;
          d[e.to] := d[x] + 1;
          queue[qr] := e.to;
          qr := qr + 1;
          assert queue[..qr] == q0 + [e.to];
          SearchVisit(E, n, s, vis0, d0, q0, qf - 1, i);
        }
        ScannedStep(E, vis0, vis[..], d0, d[..], x, i, nxt[i]);
        i := nxt[i];
      }
      SearchExpanded(E, n, s, vis[..], d[..], queue[..qr], qf);
    }

    /** A phase is under way: the lists are reset and the levels fit the residual edges. */
    ghost predicate InPhase()
      reads this, edges, head, nxt, cur, vis, d
    {
      && Valid() && 0 <= t < n && cur[..] == head[..] && Levelled(Graph(), n, vis[..], d[..])
    }

    /** dinic.cc:83-84 */
    method Augment(i: nat, f: int)
      requires m <= edges.Length && m % 2 == 0 && i < m
      modifies edges
      ensures Graph() == Push(old(Graph()), i, f)
    {
      edges[i] := edges[i].(flow := edges[i].flow + f);
      edges[Mate(i)] := edges[Mate(i)].(flow := edges[Mate(i)].flow - f);
    }

    /** dinic.cc:77-91. Levels of unvisited vertices are stale, but only vertices without room are entered there. */
    method DFS(x: int, a0: int) returns (flow: int)
      requires InPhase() && 0 <= x < n && a0 >= 0 && (a0 > 0 ==> vis[x])
      modifies edges
      ensures InPhase()
      ensures Advanced(old(Graph()), Graph(), d[..], x, t, flow) && 0 <= flow <= a0
      ensures flow < a0 ==> Dead(Graph(), d[..], t, x)
      decreases if a0 == 0 then 0 else n - d[x]
    {
      hide Network, Linked, Levelled, Advanced, Dead, DeadUpTo, Useless, SameNet, Push;
      ghost var E0, vs, ds := Graph(), vis[..], d[..];
      AdvancedNot(E0, ds, x, t);
      if x == t || a0 == 0 {
        AdvancedTarget(E0, ds, x, t, a0);
        return a0;
      }
      PhaseFacts(E0, n, head[..], nxt[..], vs, ds, x);
      var a := a0;
      flow := 0;
      var i := cur[x];
      assert i == head[..][x];
      DeadUpToStart(E0, n, head[..], nxt[..], ds, t, x);
      while i != -1
        invariant InPhase() && vis[..] == vs && d[..] == ds && a > 0 && flow >= 0 && flow + a == a0 && -1 <= i < m
        invariant Advanced(E0, Graph(), ds, x, t, flow)
        invariant i >= 0 ==> Graph()[i].from == x
        invariant DeadUpTo(Graph(), ds, t, x, i)
        decreases i
      {
        ghost var E := Graph();
        var e := edges[i];
        EdgeFacts(E, n, vs, ds, i);
        var f := 0;
        if d[x] + 1 == d[e.to] {
          f := DFS(e.to, Min(a, e.cap - e.flow));
        }
        if f > 0 {
          ghost var E1 := Graph();
          EdgePushed(E0, E, E1, n, vs, ds, x, t, i, flow, f, a);
          Augment(i, f);
          LinkedSame(E1, Graph(), n, head[..], nxt[..]);
          flow := flow + f;
          a := a - f;
          if a == 0 {
            break;
          }
        } else {
          if d[x] + 1 == d[e.to] {
            AdvancedZero(E, Graph(), ds, e.to, t);
          }
          UselessWhenBlocked(E, ds, t, x, i);
        }
        NextEdge(Graph(), n, head[..], nxt[..], i);
        DeadUpToStep(Graph(), ds, t, x, i, nxt[i]);
        i := nxt[i];
      }
      if a > 0 {
        DeadUpToAll(Graph(), ds, t, x);
      }
    }

    /** dinic.cc:97-98 */
    method ResetLists()
      requires Layout()
      modifies cur
      ensures cur[..] == head[..]
    {
      for i := 0 to n
        invariant forall u | 0 <= u < i :: cur[u] == head[u]
      {
        cur[i] := head[i];
      }
    }

    /**
     * dinic.cc:93-102. Starting from a conserved flow (all zero, say), ends with a maximum flow and a minimum cut.
     * phases counts the rounds of the loop: fewer than n, those aside that used up the INF units DFS starts with.
     */
    method Maxflow(s: int, t: int) returns (flow: int, ghost phases: nat)
      requires Valid() && 0 <= s < n && 0 <= t < n && s != t
      modifies this`s, this`t, edges, vis, d, queue, cur
      ensures Valid() && SameNet(old(Graph()), Graph())
      ensures flow == NetOut(Graph(), s) - old(NetOut(Graph(), s)) && 0 <= flow
      ensures flow <= INF * phases && phases <= n - 1 + flow / INF
      ensures old(Conserved(Graph(), n, s, t)) ==>
                && Conserved(Graph(), n, s, t) && Maximum(Graph(), n, s, t)
                && IsCut(vis[..], n, s, t) && NetOut(Graph(), s) == CutCap(Graph(), vis[..])
                && forall other | IsCut(other, n, s, t) :: CutCap(Graph(), vis[..]) <= CutCap(Graph(), other)
    {
      hide Network, Linked, Levelled, Reached, Gradual, Dead, SameNet, Maximum, IsCut, Conserved, Advanced, FlowSoFar,
           PhasesSoFar, Push, LevelPath, NetOut, CapOut, CutCap;
      this.s := s;
      this.t := t;
      flow := 0;
      phases := 0;
      ghost var E0 := Graph();
      var found := BFS();
      FlowStart(E0, n, s, t);
      PhasesStart(E0, n, s, t, vis[..], d[..]);
      while found
        invariant Valid() && this.s == s && this.t == t && Searched() && found == vis[t]
        invariant FlowSoFar(E0, Graph(), n, s, t, flow)
        invariant PhasesSoFar(n, phases, flow, found, d[t])
        decreases CapOut(E0, s) - NetOut(Graph(), s)
      {
        ghost var E, vs, ds := Graph(), vis[..], d[..];
        ResetLists();
        var more := DFS(s, INF);
        SourceAlive(E, n, s, t, vs, ds);
        FlowStep(E0, E, Graph(), n, ds, s, t, flow, more);
        found := BFS();
        PhaseCounted(E, Graph(), n, s, t, vs, ds, vis[..], d[..], flow, more, phases);
        flow := flow + more;
        phases := phases + 1;
      }
      PhasesOver(n, phases, flow, found, d[t]);
      FlowOver(E0, Graph(), n, s, t, flow, vis[..], d[..]);
    }
  }

  function Min(x: int, y: int): int {
    if x < y then x else y
  }

  lemma NetworkAppend(E: seq<Edge>, n: nat, e: Edge, f: Edge)
    requires Network(E, n) && e.from < n && e.to < n && e.from == f.to && e.to == f.from
    requires 0 <= e.cap && 0 <= f.cap && e.flow <= e.cap && f.flow <= f.cap && e.flow == -f.flow
    ensures Network(E + [e, f], n)
  {
    var F := E + [e, f];
    forall i | 0 <= i < |F|
      ensures ValidEdge(F, n, i)
    {
      if i < |E| {
        assert ValidEdge(E, n, i);
      }
    }
  }

  // ---------------------------------------------------------------- breadth-first search

  /**
   * The queue lists the visited vertices by level, spanning at most two levels from qf on; those before qf have been
   * expanded.
   */
  ghost predicate SearchState(E: seq<Edge>, n: nat, s: int, vis: seq<bool>, d: seq<int>, q: seq<int>, qf: nat) {
    && |vis| == |d| == n && qf <= |q| <= n && Distinct(q) && Within(q, n)
    && 0 <= s < n && vis[s] && d[s] == 0
    && (forall v | 0 <= v < n :: vis[v] <==> v in q)
    && (forall k | 0 <= k < |q| :: 0 <= d[q[k]] <= k)
    && (forall j, k | 0 <= j <= k < |q| :: d[q[j]] <= d[q[k]])
    && (forall k | qf < |q| && 0 <= k < |q| :: d[q[k]] <= d[q[qf]] + 1)
    && (forall k | 0 <= k < qf :: Expanded(E, vis, d, q[k]))
    && Reached(E, s, vis, d)
  }

  /** Every residual edge of x leads to a visited vertex at most one level on. */
  ghost predicate Expanded(E: seq<Edge>, vis: seq<bool>, d: seq<int>, x: int) {
    Scanned(E, vis, d, x, -1)
  }

  /** So far the edges after index i have been looked at. */
  ghost predicate Scanned(E: seq<Edge>, vis: seq<bool>, d: seq<int>, x: int, i: int) {
    forall j | 0 <= j < |E| && i < j && E[j].from == x && Residual(E[j]) > 0 :: Seen(vis, d, x, E[j].to)
  }

  predicate Seen(vis: seq<bool>, d: seq<int>, x: int, v: int) {
    0 <= x < |d| && 0 <= v < |vis| && v < |d| && vis[v] && d[v] <= d[x] + 1
  }

  lemma SearchStart(E: seq<Edge>, n: nat, s: int, vis: seq<bool>, d: seq<int>, q: seq<int>)
    requires |vis| == |d| == n && 0 <= s < n && q == [s] && d[s] == 0
    requires forall v | 0 <= v < n :: vis[v] <==> v == s
    ensures SearchState(E, n, s, vis, d, q, 0)
  {
  }

  lemma SearchBounds(E: seq<Edge>, n: nat, s: int, vis: seq<bool>, d: seq<int>, q: seq<int>, qf: nat)
    requires SearchState(E, n, s, vis, d, q, qf)
    ensures |vis| == |d| == n && qf <= |q| <= n && forall k | 0 <= k < |q| :: 0 <= q[k] < n
  {
  }

  /** A visited vertex is at most one level on from the vertex being expanded. */
  lemma SearchLevels(E: seq<Edge>, n: nat, s: int, vis: seq<bool>, d: seq<int>, q: seq<int>, qf: nat, v: int)
    requires SearchState(E, n, s, vis, d, q, qf) && qf < |q| && 0 <= v < n
    ensures |vis| == |d| == n && 0 <= q[qf] < n && vis[q[qf]] && (vis[v] ==> d[v] <= d[q[qf]] + 1)
  {
    assert q[qf] in q;
    if vis[v] {
      var k :| 0 <= k < |q| && q[k] == v;
    }
  }

  /** There is room in the queue for an unvisited vertex. */
  lemma SearchRoom(E: seq<Edge>, n: nat, s: int, vis: seq<bool>, d: seq<int>, q: seq<int>, qf: nat, v: int)
    requires SearchState(E, n, s, vis, d, q, qf) && 0 <= v < n && !vis[v]
    ensures |q| < n
  {
    Pigeonhole(q + [v], n);
  }

  lemma SearchVisit(E: seq<Edge>, n: nat, s: int, vis: seq<bool>, d: seq<int>, q: seq<int>, qf: nat, i: nat)
    requires SearchState(E, n, s, vis, d, q, qf) && qf < |q| && i < |E| && E[i].from == q[qf] && E[i].to < n
    requires !vis[E[i].to] && Residual(E[i]) > 0 && |q| < n
    ensures var v := E[i].to; SearchState(E, n, s, vis[v := true], d[v := d[q[qf]] + 1], q + [v], qf)
  {
    hide Reached, Expanded;
    var v := E[i].to;
    var vis', d', q' := vis[v := true], d[v := d[q[qf]] + 1], q + [v];
    forall k | 0 <= k < qf
      ensures Expanded(E, vis', d', q'[k])
    {
      assert q[k] in q;
      ExpandedMore(E, vis, d, v, d'[v], q[k]);
    }
    VisitReached(E, n, s, vis, d, q[qf], i);
    forall k | 0 <= k < |q'|
      ensures 0 <= d'[q'[k]] <= k
    {
      if k < |q| {
        assert q[k] in q;
      }
    }
  }

  lemma ExpandedMore(E: seq<Edge>, vis: seq<bool>, d: seq<int>, v: nat, level: int, x: int)
    requires v < |vis| == |d| && !vis[v] && x != v && Expanded(E, vis, d, x)
    ensures Expanded(E, vis[v := true], d[v := level], x)
  {
    forall j | 0 <= j < |E| && E[j].from == x && Residual(E[j]) > 0
      ensures Seen(vis[v := true], d[v := level], x, E[j].to)
    {
      assert Seen(vis, d, x, E[j].to);
    }
  }

  lemma VisitReached(E: seq<Edge>, n: nat, s: int, vis: seq<bool>, d: seq<int>, x: int, i: nat)
    requires |vis| == |d| == n && Reached(E, s, vis, d) && i < |E| && E[i].from == x < n && E[i].to < n
    requires vis[x] && !vis[E[i].to] && Residual(E[i]) > 0
    ensures Reached(E, s, vis[E[i].to := true], d[E[i].to := d[x] + 1])
  {
    var v := E[i].to;
    var vis', d' := vis[v := true], d[v := d[x] + 1];
    forall u | 0 <= u < n && vis'[u] && u != s
      ensures exists j | 0 <= j < |E| :: Parent(E, vis', d', u, j)
    {
      if u == v {
        assert Parent(E, vis', d', u, i);
      } else {
        var j :| 0 <= j < |E| && Parent(E, vis, d, u, j);
        assert Parent(E, vis', d', u, j);
      }
    }
  }

  lemma FirstEdge(E: seq<Edge>, n: nat, head: seq<int>, nxt: seq<int>, x: int)
    requires Network(E, n) && Linked(E, n, head, nxt) && 0 <= x < n
    ensures -1 <= head[x] < |E| && (head[x] >= 0 ==> E[head[x]].from == x)
    ensures forall j | 0 <= j < |E| && E[j].from == x :: j <= head[x]
    ensures forall vis, d :: Scanned(E, vis, d, x, head[x])
  {
    assert LastFrom(E, |E|, x, head[x]);
  }

  lemma NextEdge(E: seq<Edge>, n: nat, head: seq<int>, nxt: seq<int>, i: nat)
    requires Network(E, n) && Linked(E, n, head, nxt) && i < |E|
    ensures -1 <= nxt[i] < i && (nxt[i] >= 0 ==> E[nxt[i]].from == E[i].from)
    ensures forall j | nxt[i] < j < i :: E[j].from != E[i].from
    ensures E[i].from < n && E[i].to < n && E[i].flow <= E[i].cap
  {
    assert LastFrom(E, i, E[i].from, nxt[i]);
    assert ValidEdge(E, n, i);
  }

  lemma ScannedStep(E: seq<Edge>, vis: seq<bool>, vis': seq<bool>, d: seq<int>, d': seq<int>, x: int, i: nat, next: int)
    requires i < |E| && E[i].from == x < |vis| == |d| && E[i].to < |vis| && Scanned(E, vis, d, x, i) && -1 <= next < i
    requires forall j | next < j < i :: E[j].from != x
    requires |vis'| == |d'| == |d| && 0 <= x && vis[x]
             && forall v | 0 <= v < |vis| && vis[v] :: vis'[v] && d'[v] == d[v]
    requires Residual(E[i]) > 0 ==> Seen(vis', d', x, E[i].to)
    ensures Scanned(E, vis', d', x, next)
  {
    forall j | 0 <= j < |E| && next < j && E[j].from == x && Residual(E[j]) > 0
      ensures Seen(vis', d', x, E[j].to)
    {
      if j > i {
        assert Seen(vis, d, x, E[j].to);
      }
    }
  }

  lemma SearchExpanded(E: seq<Edge>, n: nat, s: int, vis: seq<bool>, d: seq<int>, q: seq<int>, qf: nat)
    requires qf >= 1 && SearchState(E, n, s, vis, d, q, qf - 1) && qf <= |q| && Expanded(E, vis, d, q[qf - 1])
    ensures SearchState(E, n, s, vis, d, q, qf)
  {
  }

  lemma SearchOver(E: seq<Edge>, n: nat, s: int, vis: seq<bool>, d: seq<int>, q: seq<int>)
    requires SearchState(E, n, s, vis, d, q, |q|)
    ensures 0 <= s < n && |vis| == |d| == n && vis[s] && d[s] == 0
    ensures Levelled(E, n, vis, d) && Reached(E, s, vis, d) && Gradual(E, vis, d)
  {
    forall i | 0 <= i < |E| && E[i].from < |vis| && vis[E[i].from] && Residual(E[i]) > 0
      ensures Seen(vis, d, E[i].from, E[i].to)
    {
      var k :| 0 <= k < |q| && q[k] == E[i].from;
      assert Expanded(E, vis, d, q[k]);
    }
    forall v | 0 <= v < n && vis[v]
      ensures 0 <= d[v] < n
    {
      var k :| 0 <= k < |q| && q[k] == v;
    }
  }

  // ---------------------------------------------------------------- depth-first augmentation

  /** E1 arose from E0 by sending r units from x to t, over edges of the level graph that start no higher than x. */
  ghost predicate Advanced(E0: seq<Edge>, E1: seq<Edge>, d: seq<int>, x: int, t: int, r: int) {
    && SameNet(E0, E1)
    && (forall v :: NetOut(E1, v) == NetOut(E0, v) + (if v == x then r else 0) - (if v == t then r else 0))
    && (0 <= x < |d| ==> Untouched(E0, E1, d, d[x]))
    && (r == 0 ==> E1 == E0)
    && RoomUpward(E0, E1, d)
  }

  ghost predicate Untouched(E0: seq<Edge>, E1: seq<Edge>, d: seq<int>, level: int)
    requires |E1| == |E0|
  {
    forall i | 0 <= i < |E0| && E0[i].from < |d| && d[E0[i].from] < level :: E1[i] == E0[i]
  }

  /** The edges after index i are no use for reaching t from x. */
  ghost predicate DeadUpTo(E: seq<Edge>, d: seq<int>, t: int, x: int, i: int) {
    forall j | 0 <= j < |E| && i < j :: Useless(E, d, t, x, j)
  }

  lemma AdvancedNot(E: seq<Edge>, d: seq<int>, x: int, t: int)
    ensures Advanced(E, E, d, x, t, 0)
  {
  }

  lemma AdvancedTarget(E: seq<Edge>, d: seq<int>, x: int, t: int, a: int)
    requires x == t || a == 0
    ensures Advanced(E, E, d, x, t, a)
    ensures x == t ==> !Dead(E, d, t, x)
  {
    assert x == t ==> LevelPath(E, d, t, x, 0);
  }

  lemma PhaseFacts(E: seq<Edge>, n: nat, head: seq<int>, nxt: seq<int>, vis: seq<bool>, d: seq<int>, x: int)
    requires Network(E, n) && Linked(E, n, head, nxt) && Levelled(E, n, vis, d) && 0 <= x < n && vis[x]
    ensures 0 <= d[x] < n && -1 <= head[x] < |E| && (head[x] >= 0 ==> E[head[x]].from == x)
  {
    FirstEdge(E, n, head, nxt, x);
  }

  lemma DeadUpToStart(E: seq<Edge>, n: nat, head: seq<int>, nxt: seq<int>, d: seq<int>, t: int, x: int)
    requires Network(E, n) && Linked(E, n, head, nxt) && 0 <= x < n
    ensures |head| == n && DeadUpTo(E, d, t, x, head[x])
  {
    FirstEdge(E, n, head, nxt, x);
  }

  lemma DeadUpToStep(E: seq<Edge>, d: seq<int>, t: int, x: int, i: nat, next: int)
    requires i < |E| && -1 <= next && forall j | next < j < i :: E[j].from != x
    requires DeadUpTo(E, d, t, x, i) && Useless(E, d, t, x, i)
    ensures DeadUpTo(E, d, t, x, next)
  {
  }

  lemma UselessWhenBlocked(E: seq<Edge>, d: seq<int>, t: int, x: int, i: nat)
    requires i < |E| && E[i].from == x && 0 <= x < |d| && E[i].to < |d|
    requires d[x] + 1 == d[E[i].to] && Residual(E[i]) > 0 ==> Dead(E, d, t, E[i].to)
    ensures Useless(E, d, t, x, i)
  {
  }

  /** After a push over edge i that left part of the demand unmet, the edge is full or its head is dead. */
  lemma UselessAfterPush(E: seq<Edge>, E1: seq<Edge>, n: nat, d: seq<int>, t: int, i: nat, f: nat)
    requires Network(E, n) && Network(E1, n) && i < |E| && E[i].from < |d| && E[i].to < |d|
    requires d[E[i].from] + 1 == d[E[i].to] && Advanced(E, E1, d, E[i].to, t, f)
    requires f <= Residual(E[i]) && (f < Residual(E[i]) ==> Dead(E1, d, t, E[i].to))
    ensures |E1| == |E| && RoomUpward(E, Push(E1, i, f), d) && Useless(Push(E1, i, f), d, t, E[i].from, i)
  {
    EdgeKept(E, E1, d, t, i, f);
    PushRoom(E1, n, d, i, f);
    RoomUpwardTrans(E, E1, Push(E1, i, f), d);
    if f < Residual(E[i]) {
      DeadStays(E1, Push(E1, i, f), d, t, E[i].to);
    }
  }

  lemma DeadUpToStays(E: seq<Edge>, F: seq<Edge>, d: seq<int>, t: int, x: int, i: int)
    requires DeadUpTo(E, d, t, x, i) && RoomUpward(E, F, d)
    ensures DeadUpTo(F, d, t, x, i)
  {
    hide Dead;
    forall j | 0 <= j < |F| && i < j
      ensures Useless(F, d, t, x, j)
    {
      assert RoomKept(E[j], F[j], d) && Useless(E, d, t, x, j);
      if Admissible(F, d, x, j) {
        DeadStays(E, F, d, t, E[j].to);
      }
    }
  }

  lemma AdvancedZero(E0: seq<Edge>, E1: seq<Edge>, d: seq<int>, x: int, t: int)
    requires Advanced(E0, E1, d, x, t, 0)
    ensures E0 == E1
  {
  }

  /** What the code relies on when it follows edge i: room only towards visited vertices. */
  lemma EdgeFacts(E: seq<Edge>, n: nat, vis: seq<bool>, d: seq<int>, i: nat)
    requires Network(E, n) && Levelled(E, n, vis, d) && i < |E|
    ensures |E| % 2 == 0 && |vis| == |d| == n && E[i].from < n && E[i].to < n && Mate(i) < |E| && Mate(i) != i
    ensures Residual(E[i]) >= 0
    ensures vis[E[i].from] ==> 0 <= d[E[i].from] < n
    ensures vis[E[i].from] && Residual(E[i]) > 0 ==> vis[E[i].to] && 0 <= d[E[i].to] < n
  {
    assert ValidEdge(E, n, i);
  }

  lemma SameNetTrans(E: seq<Edge>, F: seq<Edge>, G: seq<Edge>)
    requires SameNet(E, F) && SameNet(F, G)
    ensures SameNet(E, G)
  {
    forall i | 0 <= i < |E|
      ensures SameEdge(E[i], G[i])
    {
      assert SameEdge(E[i], F[i]) && SameEdge(F[i], G[i]);
    }
  }

  /** The recursion below y leaves the edge into y alone. */
  lemma EdgeKept(E: seq<Edge>, E1: seq<Edge>, d: seq<int>, t: int, i: nat, f: int)
    requires i < |E| && E[i].from < |d| && E[i].to < |d| && d[E[i].from] < d[E[i].to]
    requires Advanced(E, E1, d, E[i].to, t, f)
    ensures |E1| == |E| && E1[i] == E[i]
  {
  }

  /** Pushing the f units that reached t from y over the edge x -> y completes their way from x. */
  lemma AugmentAdvances(E0: seq<Edge>, E: seq<Edge>, E1: seq<Edge>, n: nat, d: seq<int>, x: int, t: int,
                        i: nat, flow: nat, f: nat)
    requires Network(E, n) && Network(E1, n) && |d| == n && i < |E| && E[i].from == x
    requires E[i].to < n && 0 <= x < n && d[x] + 1 == d[E[i].to]
    requires Advanced(E0, E, d, x, t, flow) && Advanced(E, E1, d, E[i].to, t, f) && 0 < f <= Residual(E[i])
    ensures i < |E1| && E1[i] == E[i]
    ensures Advanced(E0, Push(E1, i, f), d, x, t, flow + f)
  {
    EdgeKept(E, E1, d, t, i, f);
    var F := Push(E1, i, f);
    PushKeepsNetwork(E1, n, i, f);
    SameNetTrans(E0, E, E1);
    SameNetTrans(E0, E1, F);
    assert ValidEdge(E1, n, i);
    forall v
      ensures NetOut(F, v) == NetOut(E0, v) + (if v == x then flow + f else 0) - (if v == t then flow + f else 0)
    {
      PushNetOut(E1, n, i, f, v);
    }
    forall j | 0 <= j < |E0| && E0[j].from < |d| && d[E0[j].from] < d[x]
      ensures F[j] == E0[j]
    {
      assert E[j] == E0[j];
      assert E1[j] == E[j];
    }
    PushRoom(E1, n, d, i, f);
    RoomUpwardTrans(E0, E, E1, d);
    RoomUpwardTrans(E0, E1, F, d);
  }

  /** What holds after flow went over edge i, for the part of the demand a that the edge left unmet. */
  lemma EdgePushed(E0: seq<Edge>, E: seq<Edge>, E1: seq<Edge>, n: nat, vis: seq<bool>, d: seq<int>, x: int, t: int,
                   i: nat, flow: nat, f: nat, a: int)
    requires Network(E, n) && Network(E1, n) && Levelled(E1, n, vis, d) && i < |E| && E[i].from == x && E[i].to < n
    requires |vis| == |d| == n && 0 <= x < n && vis[x] && d[x] + 1 == d[E[i].to] && DeadUpTo(E, d, t, x, i)
    requires Advanced(E0, E, d, x, t, flow) && Advanced(E, E1, d, E[i].to, t, f) && 0 < f <= Residual(E[i])
    requires f < a && f < Residual(E[i]) ==> Dead(E1, d, t, E[i].to)
    ensures i < |E1| && |E1| % 2 == 0
    ensures var F := Push(E1, i, f);
            && Network(F, n) && SameNet(E1, F) && Levelled(F, n, vis, d) && Advanced(E0, F, d, x, t, flow + f)
            && F[i].from == x && (f < a ==> DeadUpTo(F, d, t, x, i) && Useless(F, d, t, x, i))
  {
    hide Dead, DeadUpTo, Useless, Levelled, NetOut, RoomUpward;
    AugmentAdvances(E0, E, E1, n, d, x, t, i, flow, f);
    AugmentKeeps(E1, n, vis, d, i, f);
    if f < a {
      UselessAfterPush(E, E1, n, d, t, i, f);
      DeadUpToStays(E, Push(E1, i, f), d, t, x, i);
    }
  }

  lemma AugmentKeeps(E1: seq<Edge>, n: nat, vis: seq<bool>, d: seq<int>, i: nat, f: nat)
    requires Network(E1, n) && Levelled(E1, n, vis, d) && i < |E1| && 0 < f <= Residual(E1[i])
    requires E1[i].from < n && vis[E1[i].from]
    ensures Network(Push(E1, i, f), n) && SameNet(E1, Push(E1, i, f)) && Levelled(Push(E1, i, f), n, vis, d)
  {
    PushKeepsNetwork(E1, n, i, f);
    PushKeepsClosed(E1, n, vis, i, f);
  }

  lemma DeadUpToAll(E: seq<Edge>, d: seq<int>, t: int, x: int)
    requires DeadUpTo(E, d, t, x, -1) && x != t
    ensures Dead(E, d, t, x)
  {
    DeadFrom(E, d, t, x);
  }

  // ---------------------------------------------------------------- phases

  ghost predicate FlowSoFar(E0: seq<Edge>, E: seq<Edge>, n: nat, s: int, t: int, flow: int) {
    && SameNet(E0, E) && 0 <= flow
    && NetOut(E, s) == NetOut(E0, s) + flow <= CapOut(E0, s)
    && forall v | 0 <= v < n && v != s && v != t :: NetOut(E, v) == NetOut(E0, v)
  }

  lemma SourceBound(E: seq<Edge>, n: nat, v: int)
    requires Network(E, n)
    ensures NetOut(E, v) <= CapOut(E, v)
  {
    forall i | 0 <= i < |E|
      ensures E[i].flow <= E[i].cap
    {
      assert ValidEdge(E, n, i);
    }
    NetOutBound(E, v);
  }

  lemma FlowStart(E: seq<Edge>, n: nat, s: int, t: int)
    requires Network(E, n)
    ensures FlowSoFar(E, E, n, s, t, 0)
  {
    SourceBound(E, n, s);
  }

  /** A phase pushes at least one unit and stays below what can leave the source. */
  lemma FlowStep(E0: seq<Edge>, E: seq<Edge>, E1: seq<Edge>, n: nat, d: seq<int>, s: int, t: int, flow: int, more: int)
    requires FlowSoFar(E0, E, n, s, t, flow) && Network(E1, n) && s != t
    requires Advanced(E, E1, d, s, t, more) && 0 <= more
    requires more < INF ==> Dead(E1, d, t, s)
    requires !Dead(E, d, t, s)
    ensures FlowSoFar(E0, E1, n, s, t, flow + more) && NetOut(E1, s) > NetOut(E, s)
    ensures NetOut(E1, s) <= CapOut(E0, s)
  {
    SameNetTrans(E0, E, E1);
    SourceBound(E1, n, s);
    SameCapOut(E0, E1, s);
  }

  /** Phases that used up the INF units aside, there were fewer than the sink's present level. */
  ghost predicate PhasesSoFar(n: nat, phases: nat, flow: int, found: bool, level: int) {
    && 0 <= flow <= INF * phases && phases - flow / INF < n
    && (found ==> phases - flow / INF < level < n)
  }

  lemma PhasesStart(E: seq<Edge>, n: nat, s: int, t: int, vis: seq<bool>, d: seq<int>)
    requires Levelled(E, n, vis, d) && Reached(E, s, vis, d) && 0 <= s < n && 0 <= t < n && s != t
    ensures |vis| == |d| == n && PhasesSoFar(n, 0, 0, vis[t], d[t])
  {
    if vis[t] {
      var i :| 0 <= i < |E| && Parent(E, vis, d, t, i);
    }
  }

  /**
   * The distance from s to t never falls from one search to the next, and grows when the phase between them blocked.
   */
  lemma NextPhase(E: seq<Edge>, E1: seq<Edge>, n: nat, s: int, t: int, vis: seq<bool>, d: seq<int>,
                  vis': seq<bool>, d': seq<int>, more: int)
    requires Levelled(E1, n, vis, d) && Gradual(E, vis, d) && 0 <= s < n && vis[s] && d[s] == 0 && 0 <= t < n
    requires Advanced(E, E1, d, s, t, more) && (more < INF ==> Dead(E1, d, t, s))
    requires Levelled(E1, n, vis', d') && Reached(E1, s, vis', d') && vis'[s] && d'[s] == 0
    ensures |vis'| == |d'| == |d| == n
    ensures vis'[t] ==> d[t] <= d'[t] < n && (more < INF ==> d[t] < d'[t])
  {
    hide Dead;
    GradualStays(E, E1, vis, d);
    if vis'[t] {
      LevelWalk(E1, n, s, vis', d', t);
      PhaseRaises(E1, n, s, t, vis, d, d'[t]);
    }
  }

  lemma PhaseCounted(E: seq<Edge>, E1: seq<Edge>, n: nat, s: int, t: int, vis: seq<bool>, d: seq<int>,
                     vis': seq<bool>, d': seq<int>, flow: int, more: int, phases: nat)
    requires Levelled(E1, n, vis, d) && Gradual(E, vis, d) && 0 <= s < n && vis[s] && d[s] == 0 && 0 <= t < n
    requires Advanced(E, E1, d, s, t, more) && (more < INF ==> Dead(E1, d, t, s)) && 0 <= more <= INF
    requires Levelled(E1, n, vis', d') && Reached(E1, s, vis', d') && vis'[s] && d'[s] == 0
    requires PhasesSoFar(n, phases, flow, true, d[t])
    ensures |vis'| == |d'| == n && PhasesSoFar(n, phases + 1, flow + more, vis'[t], d'[t])
  {
    hide Levelled, Gradual, Reached, Dead, Advanced;
    NextPhase(E, E1, n, s, t, vis, d, vis', d', more);
    assert (flow + more) / INF >= flow / INF && (more == INF ==> (flow + more) / INF == flow / INF + 1);
  }

  lemma PhasesOver(n: nat, phases: nat, flow: int, found: bool, level: int)
    requires PhasesSoFar(n, phases, flow, found, level)
    ensures flow <= INF * phases && phases <= n - 1 + flow / INF
  {
  }

  lemma FlowOver(E0: seq<Edge>, E: seq<Edge>, n: nat, s: int, t: int, flow: int,
                 vis: seq<bool>, d: seq<int>)
    requires FlowSoFar(E0, E, n, s, t, flow) && Network(E, n) && Levelled(E, n, vis, d)
    requires 0 <= s < n && 0 <= t < n && vis[s] && !vis[t]
    ensures SameNet(E0, E) && 0 <= flow == NetOut(E, s) - NetOut(E0, s)
    ensures Conserved(E0, n, s, t) ==>
              && Conserved(E, n, s, t) && Maximum(E, n, s, t) && IsCut(vis, n, s, t)
              && NetOut(E, s) == CutCap(E, vis)
              && forall other | IsCut(other, n, s, t) :: CutCap(E, vis) <= CutCap(E, other)
  {
    if Conserved(E0, n, s, t) {
      ClosedSaturates(E, n, vis);
      SaturatedIsOptimal(E, n, s, t, vis);
    }
  }

  /** A network built by AddEdge carries no flow, so it starts conserved, with value 0. */
  lemma {:induction false} ZeroFlowConserved(E: seq<Edge>, n: nat, s: int, t: int)
    requires forall i | 0 <= i < |E| :: E[i].flow == 0
    ensures Conserved(E, n, s, t) && forall v :: NetOut(E, v) == 0
  {
    if E != [] {
      ZeroFlowConserved(E[..|E| - 1], n, s, t);
    }
  }
}
