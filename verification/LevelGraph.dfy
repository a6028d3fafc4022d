/** The level graph of one phase of Dinic's algorithm, and the adjacency lists threaded through the edge array. */
module LevelGraph {
  import opened FlowNetwork

  function Residual(e: Edge): int {
    e.cap - e.flow
  }

  // ---------------------------------------------------------------- adjacency lists

  /** e is the largest index below k of an edge that starts at u, or -1. */
  ghost predicate LastFrom(E: seq<Edge>, k: nat, u: int, e: int)
    requires k <= |E|
  {
    && -1 <= e < k && (e >= 0 ==> E[e].from == u)
    && forall j | 0 <= j < k && E[j].from == u :: j <= e
  }

  /** head[u] and nxt thread every vertex's edges, newest first. */
  ghost predicate Linked(E: seq<Edge>, n: nat, head: seq<int>, nxt: seq<int>) {
    && |head| == n && |nxt| >= |E|
    && (forall u | 0 <= u < n :: LastFrom(E, |E|, u, head[u]))
    && forall i | 0 <= i < |E| :: LastFrom(E, i, E[i].from, nxt[i])
  }

  lemma LinkedSame(E: seq<Edge>, F: seq<Edge>, n: nat, head: seq<int>, nxt: seq<int>)
    requires Linked(E, n, head, nxt) && SameNet(E, F)
    ensures Linked(F, n, head, nxt)
  {
    assert forall i | 0 <= i < |E| :: SameEdge(E[i], F[i]);
    forall u | 0 <= u < n
      ensures LastFrom(F, |F|, u, head[u])
    {
      assert LastFrom(E, |E|, u, head[u]);
    }
    forall i | 0 <= i < |F|
      ensures LastFrom(F, i, F[i].from, nxt[i])
    {
      assert LastFrom(E, i, E[i].from, nxt[i]);
    }
  }

  /** Prepending one edge to its list, dinic.cc:49-51. */
  lemma LinkedAppend(E: seq<Edge>, n: nat, head: seq<int>, nxt: seq<int>, e: Edge)
    requires Linked(E, n, head, nxt) && e.from < n && |nxt| > |E|
    ensures Linked(E + [e], n, head[e.from := |E|], nxt[|E| := head[e.from]])
  {
    var F, head', nxt' := E + [e], head[e.from := |E|], nxt[|E| := head[e.from]];
    forall u | 0 <= u < n
      ensures LastFrom(F, |F|, u, head'[u])
    {
      assert LastFrom(E, |E|, u, head[u]);
    }
    forall i | 0 <= i < |F|
      ensures LastFrom(F, i, F[i].from, nxt'[i])
    {
      if i < |E| {
        assert LastFrom(E, i, E[i].from, nxt[i]);
      } else {
        assert LastFrom(E, |E|, e.from, head[e.from]);
      }
    }
  }

  // ---------------------------------------------------------------- levels

  /** What a successful search leaves behind: visited vertices are closed under residual edges and carry levels. */
  ghost predicate Levelled(E: seq<Edge>, n: nat, vis: seq<bool>, d: seq<int>) {
    && |vis| == |d| == n && Closed(E, vis)
    && forall v | 0 <= v < n && vis[v] :: 0 <= d[v] < n
  }

  ghost predicate Closed(E: seq<Edge>, vis: seq<bool>) {
    forall i | 0 <= i < |E| && E[i].from < |vis| && vis[E[i].from] && Residual(E[i]) > 0 ::
      E[i].to < |vis| && vis[E[i].to]
  }

  /** Edge i leads one level down with capacity to spare. */
  ghost predicate Admissible(E: seq<Edge>, d: seq<int>, x: int, i: nat)
    requires i < |E|
  {
    && E[i].from == x < |d| && E[i].to < |d| && Residual(E[i]) > 0
    && d[x] + 1 == d[E[i].to]
  }

  /** A path of at most k admissible edges leads from x to t. */
  ghost predicate LevelPath(E: seq<Edge>, d: seq<int>, t: int, x: int, k: nat)
    decreases k
  {
    x == t || (k > 0 && exists i | 0 <= i < |E| :: Admissible(E, d, x, i) && LevelPath(E, d, t, E[i].to, k - 1))
  }

  ghost predicate Dead(E: seq<Edge>, d: seq<int>, t: int, x: int) {
    forall k: nat :: !LevelPath(E, d, t, x, k)
  }

  /** Edge i is no use for reaching t from x. */
  ghost predicate Useless(E: seq<Edge>, d: seq<int>, t: int, x: int, i: nat)
    requires i < |E|
  {
    Admissible(E, d, x, i) ==> Dead(E, d, t, E[i].to)
  }

  lemma DeadFrom(E: seq<Edge>, d: seq<int>, t: int, x: int)
    requires x != t && forall i | 0 <= i < |E| :: Useless(E, d, t, x, i)
    ensures Dead(E, d, t, x)
  {
    forall k: nat
      ensures !LevelPath(E, d, t, x, k)
    {
      forall i | 0 <= i < |E| && k > 0
        ensures !(Admissible(E, d, x, i) && LevelPath(E, d, t, E[i].to, k - 1))
      {
        assert Useless(E, d, t, x, i);
      }
    }
  }

  /** Every visited vertex but s was reached over an admissible edge. */
  ghost predicate Reached(E: seq<Edge>, s: int, vis: seq<bool>, d: seq<int>) {
    forall v | 0 <= v < |vis| && vis[v] && v != s :: exists i | 0 <= i < |E| :: Parent(E, vis, d, v, i)
  }

  ghost predicate Parent(E: seq<Edge>, vis: seq<bool>, d: seq<int>, v: int, i: nat)
    requires i < |E|
  {
    && E[i].to == v && E[i].from < |vis| && vis[E[i].from]
    && Admissible(E, d, E[i].from, i)
  }

  lemma ParentOf(E: seq<Edge>, s: int, vis: seq<bool>, d: seq<int>, v: int) returns (i: nat)
    requires Reached(E, s, vis, d) && 0 <= v < |vis| && vis[v] && v != s
    ensures i < |E| && Parent(E, vis, d, v, i)
  {
    i :| 0 <= i < |E| && Parent(E, vis, d, v, i);
  }

  /** From s a level path leads to every visited vertex, hence to what that vertex reaches. */
  lemma {:induction false} PathFromSource(E: seq<Edge>, n: nat, s: int, t: int, vis: seq<bool>, d: seq<int>, v: int,
                                          k: nat)
    requires Levelled(E, n, vis, d) && Reached(E, s, vis, d) && 0 <= s < n && vis[s] && d[s] == 0
    requires 0 <= v < n && vis[v] && LevelPath(E, d, t, v, k)
    ensures exists m: nat :: LevelPath(E, d, t, s, m)
    decreases d[v]
  {
    if v != s {
      var i := ParentOf(E, s, vis, d, v);
      assert LevelPath(E, d, t, E[i].from, k + 1);
      PathFromSource(E, n, s, t, vis, d, E[i].from, k + 1);
    } else {
      assert LevelPath(E, d, t, s, k);
    }
  }

  /** A phase whose search reached t does not start from a dead source. */
  lemma SourceAlive(E: seq<Edge>, n: nat, s: int, t: int, vis: seq<bool>, d: seq<int>)
    requires Levelled(E, n, vis, d) && Reached(E, s, vis, d) && 0 <= s < n && vis[s] && d[s] == 0
    requires 0 <= t < n && vis[t]
    ensures !Dead(E, d, t, s)
  {
    assert LevelPath(E, d, t, t, 0);
    PathFromSource(E, n, s, t, vis, d, t, 0);
  }

  /** A search that missed t leaves a saturated cut. */
  lemma ClosedSaturates(E: seq<Edge>, n: nat, vis: seq<bool>)
    requires Network(E, n) && |vis| == n && Closed(E, vis)
    ensures Saturated(E, vis)
  {
    forall i | 0 <= i < |E| && Crosses(E[i], vis)
      ensures E[i].flow == E[i].cap
    {
      assert ValidEdge(E, n, i);
    }
  }

  lemma PushKeepsClosed(E: seq<Edge>, n: nat, vis: seq<bool>, i: nat, f: nat)
    requires Network(E, n) && |vis| == n && Closed(E, vis) && i < |E|
    requires E[i].from < n && vis[E[i].from] && E[i].to < n && vis[E[i].to]
    ensures Closed(Push(E, i, f), vis)
  {
    assert ValidEdge(E, n, i);
    var F := Push(E, i, f);
    forall j | 0 <= j < |F| && F[j].from < |vis| && vis[F[j].from] && Residual(F[j]) > 0
      ensures F[j].to < |vis| && vis[F[j].to]
    {
      assert ValidEdge(E, n, j);
    }
  }

  // ---------------------------------------------------------------- distances

  /** k edges with room lead from s to v. */
  ghost predicate Walk(E: seq<Edge>, s: int, v: int, k: nat)
    decreases k
  {
    if k == 0 then v == s
    else exists i | 0 <= i < |E| :: E[i].to == v && Residual(E[i]) > 0 && Walk(E, s, E[i].from, k - 1)
  }

  /** No edge with room climbs more than one level. */
  ghost predicate Gradual(E: seq<Edge>, vis: seq<bool>, d: seq<int>) {
    forall i | 0 <= i < |E| && E[i].from < |vis| && vis[E[i].from] && Residual(E[i]) > 0 ::
      E[i].from < |d| && E[i].to < |d| && d[E[i].to] <= d[E[i].from] + 1
  }

  lemma WalkStart(E: seq<Edge>, s: int)
    ensures Walk(E, s, s, 0)
  {
  }

  lemma WalkStep(E: seq<Edge>, s: int, i: nat, k: nat)
    requires i < |E| && Residual(E[i]) > 0 && Walk(E, s, E[i].from, k)
    ensures Walk(E, s, E[i].to, k + 1)
  {
  }

  lemma {:induction false} LevelWalk(E: seq<Edge>, n: nat, s: int, vis: seq<bool>, d: seq<int>, v: int)
    requires Levelled(E, n, vis, d) && Reached(E, s, vis, d) && 0 <= s < n && vis[s] && d[s] == 0
    requires 0 <= v < n && vis[v]
    ensures Walk(E, s, v, d[v])
    decreases d[v]
  {
    hide Walk, Reached;
    if v != s {
      var i := ParentOf(E, s, vis, d, v);
      LevelWalk(E, n, s, vis, d, E[i].from);
      WalkStep(E, s, i, d[v] - 1);
    } else {
      WalkStart(E, s);
    }
  }

  lemma {:induction false} WalkLevel(E: seq<Edge>, n: nat, s: int, vis: seq<bool>, d: seq<int>, v: int, k: nat)
    requires Levelled(E, n, vis, d) && Gradual(E, vis, d) && 0 <= s < n && vis[s] && d[s] == 0
    requires Walk(E, s, v, k)
    ensures 0 <= v < n && vis[v] && d[v] <= k
    decreases k
  {
    if k > 0 {
      var i :| 0 <= i < |E| && E[i].to == v && Residual(E[i]) > 0 && Walk(E, s, E[i].from, k - 1);
      WalkLevel(E, n, s, vis, d, E[i].from, k - 1);
    }
  }

  /** Visited means reachable, and a level is the length of a shortest walk. */
  lemma LevelIsDistance(E: seq<Edge>, n: nat, s: int, vis: seq<bool>, d: seq<int>, v: int)
    requires Levelled(E, n, vis, d) && Reached(E, s, vis, d) && Gradual(E, vis, d)
    requires 0 <= s < n && vis[s] && d[s] == 0 && 0 <= v < n
    ensures vis[v] <==> exists k: nat :: Walk(E, s, v, k)
    ensures vis[v] ==> Walk(E, s, v, d[v]) && forall k: nat | Walk(E, s, v, k) :: d[v] <= k
  {
    hide Walk, Reached, Gradual;
    if vis[v] {
      LevelWalk(E, n, s, vis, d, v);
    }
    forall k: nat | Walk(E, s, v, k)
      ensures vis[v] && d[v] <= k
    {
      WalkLevel(E, n, s, vis, d, v, k);
    }
  }

  /** Whatever gained room on the way from E to F leads back up one level. */
  ghost predicate RoomUpward(E: seq<Edge>, F: seq<Edge>, d: seq<int>) {
    && |E| == |F|
    && forall i | 0 <= i < |E| :: RoomKept(E[i], F[i], d)
  }

  predicate RoomKept(e: Edge, f: Edge, d: seq<int>) {
    && SameEdge(e, f)
    && (Residual(f) > 0 ==> Residual(e) > 0 || (e.from < |d| && e.to < |d| && d[e.to] + 1 == d[e.from]))
  }

  lemma RoomUpwardTrans(E: seq<Edge>, F: seq<Edge>, G: seq<Edge>, d: seq<int>)
    requires RoomUpward(E, F, d) && RoomUpward(F, G, d)
    ensures RoomUpward(E, G, d)
  {
    forall i | 0 <= i < |E|
      ensures RoomKept(E[i], G[i], d)
    {
      assert RoomKept(E[i], F[i], d) && RoomKept(F[i], G[i], d);
    }
  }

  /** A push over an edge of the level graph makes room only for its mate. */
  lemma PushRoom(E: seq<Edge>, n: nat, d: seq<int>, i: nat, f: nat)
    requires Network(E, n) && i < |E| && E[i].from < |d| && E[i].to < |d| && d[E[i].from] + 1 == d[E[i].to]
    ensures RoomUpward(E, Push(E, i, f), d)
  {
    assert ValidEdge(E, n, i);
    var F := Push(E, i, f);
    forall j | 0 <= j < |E|
      ensures RoomKept(E[j], F[j], d)
    {
      if j == Mate(i) {
        assert ValidEdge(E, n, j);
      }
    }
  }

  /** So the level graph only loses edges during a phase, and a dead vertex stays dead. */
  lemma {:induction false} PathsShrink(E: seq<Edge>, F: seq<Edge>, d: seq<int>, t: int, x: int, k: nat)
    requires RoomUpward(E, F, d) && LevelPath(F, d, t, x, k)
    ensures LevelPath(E, d, t, x, k)
    decreases k
  {
    if x != t {
      var i :| 0 <= i < |F| && Admissible(F, d, x, i) && LevelPath(F, d, t, F[i].to, k - 1);
      assert RoomKept(E[i], F[i], d);
      PathsShrink(E, F, d, t, F[i].to, k - 1);
      assert Admissible(E, d, x, i);
    }
  }

  lemma DeadStays(E: seq<Edge>, F: seq<Edge>, d: seq<int>, t: int, x: int)
    requires RoomUpward(E, F, d) && Dead(E, d, t, x)
    ensures Dead(F, d, t, x)
  {
    forall k: nat
      ensures !LevelPath(F, d, t, x, k)
    {
      if LevelPath(F, d, t, x, k) {
        PathsShrink(E, F, d, t, x, k);
      }
    }
  }

  lemma GradualStays(E: seq<Edge>, F: seq<Edge>, vis: seq<bool>, d: seq<int>)
    requires Gradual(E, vis, d) && RoomUpward(E, F, d)
    ensures Gradual(F, vis, d)
  {
    forall i | 0 <= i < |F| && F[i].from < |vis| && vis[F[i].from] && Residual(F[i]) > 0
      ensures F[i].from < |d| && F[i].to < |d| && d[F[i].to] <= d[F[i].from] + 1
    {
      assert RoomKept(E[i], F[i], d);
    }
  }

  /** A walk to v no longer than v's level climbs one level with every edge. */
  lemma {:induction false} ShortestWalkClimbs(E: seq<Edge>, n: nat, s: int, t: int, vis: seq<bool>, d: seq<int>,
                                              v: int, k: nat, m: nat)
    requires Levelled(E, n, vis, d) && Gradual(E, vis, d) && 0 <= s < n && vis[s] && d[s] == 0
    requires Walk(E, s, v, k) && 0 <= v < n && k <= d[v] && LevelPath(E, d, t, v, m)
    ensures LevelPath(E, d, t, s, k + m)
    decreases k
  {
    if k > 0 {
      var i :| 0 <= i < |E| && E[i].to == v && Residual(E[i]) > 0 && Walk(E, s, E[i].from, k - 1);
      WalkLevel(E, n, s, vis, d, E[i].from, k - 1);
      assert Admissible(E, d, E[i].from, i);
      assert LevelPath(E, d, t, E[i].from, m + 1);
      ShortestWalkClimbs(E, n, s, t, vis, d, E[i].from, k - 1, m + 1);
    }
  }

  /** When a phase is over, no walk to t is shorter than before; when it blocked the level graph, all are longer. */
  lemma PhaseRaises(E: seq<Edge>, n: nat, s: int, t: int, vis: seq<bool>, d: seq<int>, k: nat)
    requires Levelled(E, n, vis, d) && Gradual(E, vis, d) && 0 <= s < n && vis[s] && d[s] == 0
    requires Walk(E, s, t, k)
    ensures 0 <= t < n && d[t] <= k && (Dead(E, d, t, s) ==> d[t] < k)
  {
    WalkLevel(E, n, s, vis, d, t, k);
    if d[t] == k {
      assert LevelPath(E, d, t, t, 0);
      ShortestWalkClimbs(E, n, s, t, vis, d, t, k, 0);
    }
  }
}
