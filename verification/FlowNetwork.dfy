/** Flows on a residual network: paired edges, net outflow, cuts, and max-flow = min-cut. */
module FlowNetwork {

  datatype Edge = Edge(from: nat, to: nat, cap: int, flow: int)

  /** The index i ^ 1: an edge and its reverse are stored side by side. */
  function Mate(i: nat): nat {
    if i % 2 == 0 then i + 1 else i - 1
  }

  /** Endpoints below n, capacities respected, and every edge's mate is its reverse carrying the opposite flow. */
  ghost predicate Network(E: seq<Edge>, n: nat) {
    && |E| % 2 == 0
    && forall i | 0 <= i < |E| :: ValidEdge(E, n, i)
  }

  ghost predicate ValidEdge(E: seq<Edge>, n: nat, i: nat)
    requires i < |E| && |E| % 2 == 0
  {
    && E[i].from < n && E[i].to < n && 0 <= E[i].cap && E[i].flow <= E[i].cap
    && E[Mate(i)].from == E[i].to && E[Mate(i)].to == E[i].from && E[Mate(i)].flow == -E[i].flow
  }

  /** The same edges and capacities; only the flow may differ. */
  ghost predicate SameNet(E: seq<Edge>, F: seq<Edge>) {
    && |E| == |F|
    && forall i | 0 <= i < |E| :: SameEdge(E[i], F[i])
  }

  predicate SameEdge(e: Edge, f: Edge) {
    e.from == f.from && e.to == f.to && e.cap == f.cap
  }

  /** Flow leaving v, less the flow entering it. */
  ghost function NetOut(E: seq<Edge>, v: int): int {
    if E == [] then 0
    else NetOut(E[..|E| - 1], v) + if E[|E| - 1].from == v then E[|E| - 1].flow else 0
  }

  /** Every vertex but s and t passes on what it receives. */
  ghost predicate Conserved(E: seq<Edge>, n: nat, s: int, t: int) {
    forall v | 0 <= v < n && v != s && v != t :: NetOut(E, v) == 0
  }

  // ---------------------------------------------------------------- cuts

  predicate Crosses(e: Edge, side: seq<bool>) {
    e.from < |side| && e.to < |side| && side[e.from] && !side[e.to]
  }

  /** The capacity of the edges leaving the side. */
  ghost function CutCap(E: seq<Edge>, side: seq<bool>): int {
    if E == [] then 0
    else CutCap(E[..|E| - 1], side) + if Crosses(E[|E| - 1], side) then E[|E| - 1].cap else 0
  }

  /** The flow on the edges leaving the side. */
  ghost function CutFlow(E: seq<Edge>, side: seq<bool>): int {
    if E == [] then 0
    else CutFlow(E[..|E| - 1], side) + if Crosses(E[|E| - 1], side) then E[|E| - 1].flow else 0
  }

  /** The flow on all edges that start on the side. */
  ghost function SideFlow(E: seq<Edge>, side: seq<bool>): int {
    if E == [] then 0
    else
      var e := E[|E| - 1];
      SideFlow(E[..|E| - 1], side) + if e.from < |side| && side[e.from] then e.flow else 0
  }

  /** The net outflow of the vertices of the side below k. */
  ghost function SideSum(E: seq<Edge>, side: seq<bool>, k: nat): int
    requires k <= |side|
  {
    if k == 0 then 0 else SideSum(E, side, k - 1) + if side[k - 1] then NetOut(E, k - 1) else 0
  }

  ghost predicate IsCut(side: seq<bool>, n: nat, s: int, t: int) {
    |side| == n && 0 <= s < n && 0 <= t < n && side[s] && !side[t]
  }

  lemma {:induction false} SideSumStep(E: seq<Edge>, side: seq<bool>, k: nat)
    requires k <= |side| && E != []
    ensures SideSum(E, side, k) == SideSum(E[..|E| - 1], side, k)
                                   + if E[|E| - 1].from < k && side[E[|E| - 1].from] then E[|E| - 1].flow else 0
  {
    if k > 0 {
      SideSumStep(E, side, k - 1);
    }
  }

  lemma {:induction false} SideSumEmpty(side: seq<bool>, k: nat)
    requires k <= |side|
    ensures SideSum([], side, k) == 0
  {
    if k > 0 {
      SideSumEmpty(side, k - 1);
    }
  }

  /** Summing by vertex and summing by edge agree. */
  lemma {:induction false} SideSumIsSideFlow(E: seq<Edge>, side: seq<bool>)
    ensures SideSum(E, side, |side|) == SideFlow(E, side)
  {
    if E == [] {
      SideSumEmpty(side, |side|);
    } else {
      SideSumIsSideFlow(E[..|E| - 1], side);
      SideSumStep(E, side, |side|);
    }
  }

  /** Of a conserved flow only the source contributes to a side that holds s and not t. */
  lemma {:induction false} SideSumIsSource(E: seq<Edge>, side: seq<bool>, n: nat, s: int, t: int, k: nat)
    requires IsCut(side, n, s, t) && Conserved(E, n, s, t) && k <= n
    ensures SideSum(E, side, k) == if s < k then NetOut(E, s) else 0
  {
    if k > 0 {
      SideSumIsSource(E, side, n, s, t, k - 1);
    }
  }

  lemma NetworkPrefix(E: seq<Edge>, n: nat)
    requires Network(E, n) && |E| >= 2
    ensures Network(E[..|E| - 2], n)
  {
    var F := E[..|E| - 2];
    forall i | 0 <= i < |F|
      ensures ValidEdge(F, n, i)
    {
      assert ValidEdge(E, n, i);
    }
  }

  /** Edges inside the side cancel against their mates. */
  lemma {:induction false} InsideCancels(E: seq<Edge>, side: seq<bool>)
    requires Network(E, |side|)
    ensures SideFlow(E, side) == CutFlow(E, side)
  {
    if |E| >= 2 {
      var F, G := E[..|E| - 2], E[..|E| - 1];
      NetworkPrefix(E, |side|);
      InsideCancels(F, side);
      assert G[..|G| - 1] == F;
      assert ValidEdge(E, |side|, |E| - 1) && ValidEdge(E, |side|, |E| - 2);
    }
  }

  lemma {:induction false} FlowBelowCapacity(E: seq<Edge>, side: seq<bool>)
    requires forall i | 0 <= i < |E| :: E[i].flow <= E[i].cap
    ensures CutFlow(E, side) <= CutCap(E, side)
  {
    if E != [] {
      FlowBelowCapacity(E[..|E| - 1], side);
    }
  }

  /** No edge leads from the side to a vertex outside it with capacity to spare. */
  ghost predicate Saturated(E: seq<Edge>, side: seq<bool>) {
    forall i | 0 <= i < |E| && Crosses(E[i], side) :: E[i].flow == E[i].cap
  }

  lemma {:induction false} SaturatedFlow(E: seq<Edge>, side: seq<bool>)
    requires Saturated(E, side)
    ensures CutFlow(E, side) == CutCap(E, side)
  {
    if E != [] {
      assert Saturated(E[..|E| - 1], side);
      SaturatedFlow(E[..|E| - 1], side);
    }
  }

  lemma {:induction false} SameCutCap(E: seq<Edge>, F: seq<Edge>, side: seq<bool>)
    requires SameNet(E, F)
    ensures CutCap(E, side) == CutCap(F, side)
  {
    if E != [] {
      SameCutCap(E[..|E| - 1], F[..|F| - 1], side);
      assert SameEdge(E[|E| - 1], F[|F| - 1]);
    }
  }

  /** The value of a flow is the net flow over any cut. */
  lemma ValueAcrossCut(E: seq<Edge>, n: nat, s: int, t: int, side: seq<bool>)
    requires Network(E, n) && Conserved(E, n, s, t) && IsCut(side, n, s, t)
    ensures NetOut(E, s) == CutFlow(E, side)
  {
    SideSumIsSource(E, side, n, s, t, n);
    SideSumIsSideFlow(E, side);
    InsideCancels(E, side);
  }

  /** Weak duality: no flow exceeds any cut. */
  lemma FlowAtMostCut(E: seq<Edge>, n: nat, s: int, t: int, side: seq<bool>)
    requires Network(E, n) && Conserved(E, n, s, t) && IsCut(side, n, s, t)
    ensures NetOut(E, s) <= CutCap(E, side)
  {
    ValueAcrossCut(E, n, s, t, side);
    forall i | 0 <= i < |E|
      ensures E[i].flow <= E[i].cap
    {
      assert ValidEdge(E, n, i);
    }
    FlowBelowCapacity(E, side);
  }

  /** A flow that saturates a cut is maximum, and the cut is minimum. */
  lemma SaturatedIsOptimal(E: seq<Edge>, n: nat, s: int, t: int, side: seq<bool>)
    requires Network(E, n) && Conserved(E, n, s, t) && IsCut(side, n, s, t) && Saturated(E, side)
    ensures NetOut(E, s) == CutCap(E, side)
    ensures Maximum(E, n, s, t)
    ensures forall other | IsCut(other, n, s, t) :: CutCap(E, side) <= CutCap(E, other)
  {
    ValueAcrossCut(E, n, s, t, side);
    SaturatedFlow(E, side);
    forall F | SameNet(E, F) && Network(F, n) && Conserved(F, n, s, t)
      ensures NetOut(F, s) <= NetOut(E, s)
    {
      FlowAtMostCut(F, n, s, t, side);
      SameCutCap(E, F, side);
    }
    forall other | IsCut(other, n, s, t)
      ensures CutCap(E, side) <= CutCap(E, other)
    {
      FlowAtMostCut(E, n, s, t, other);
    }
  }

  /** No flow on the same network has a larger value. */
  ghost predicate Maximum(E: seq<Edge>, n: nat, s: int, t: int) {
    forall F | SameNet(E, F) && Network(F, n) && Conserved(F, n, s, t) :: NetOut(F, s) <= NetOut(E, s)
  }

  // ---------------------------------------------------------------- pushing flow along one edge

  ghost function Push(E: seq<Edge>, i: nat, f: int): seq<Edge>
    requires i < |E| && |E| % 2 == 0
  {
    E[i := E[i].(flow := E[i].flow + f)][Mate(i) := E[Mate(i)].(flow := E[Mate(i)].flow - f)]
  }

  lemma PushKeepsNetwork(E: seq<Edge>, n: nat, i: nat, f: nat)
    requires Network(E, n) && i < |E| && f <= E[i].cap - E[i].flow
    ensures Network(Push(E, i, f), n) && SameNet(E, Push(E, i, f))
  {
    var F := Push(E, i, f);
    assert ValidEdge(E, n, i) && ValidEdge(E, n, Mate(i));
    forall j | 0 <= j < |F|
      ensures ValidEdge(F, n, j)
    {
      assert ValidEdge(E, n, j);
      assert Mate(Mate(j)) == j;
    }
  }

  lemma {:induction false} NetOutUpdate(E: seq<Edge>, i: nat, e: Edge, v: int)
    requires i < |E| && e.from == E[i].from
    ensures NetOut(E[i := e], v) == NetOut(E, v) + if e.from == v then e.flow - E[i].flow else 0
  {
    var last := |E| - 1;
    if i < last {
      NetOutUpdate(E[..last], i, e, v);
      assert E[i := e][..last] == E[..last][i := e];
    } else {
      assert E[i := e][..last] == E[..last];
    }
  }

  /** Pushing moves f from the edge's head to its tail, and touches no other vertex. */
  lemma PushNetOut(E: seq<Edge>, n: nat, i: nat, f: int, v: int)
    requires Network(E, n) && i < |E|
    ensures NetOut(Push(E, i, f), v)
         == NetOut(E, v) + (if v == E[i].from then f else 0) - (if v == E[i].to then f else 0)
  {
    assert ValidEdge(E, n, i);
    var F := E[i := E[i].(flow := E[i].flow + f)];
    NetOutUpdate(E, i, F[i], v);
    NetOutUpdate(F, Mate(i), F[Mate(i)].(flow := F[Mate(i)].flow - f), v);
  }

  /** What can leave v at most. */
  ghost function CapOut(E: seq<Edge>, v: int): int {
    if E == [] then 0
    else CapOut(E[..|E| - 1], v) + if E[|E| - 1].from == v then E[|E| - 1].cap else 0
  }

  lemma {:induction false} NetOutBound(E: seq<Edge>, v: int)
    requires forall i | 0 <= i < |E| :: E[i].flow <= E[i].cap
    ensures NetOut(E, v) <= CapOut(E, v)
  {
    if E != [] {
      NetOutBound(E[..|E| - 1], v);
    }
  }

  lemma {:induction false} SameCapOut(E: seq<Edge>, F: seq<Edge>, v: int)
    requires SameNet(E, F)
    ensures CapOut(E, v) == CapOut(F, v)
  {
    if E != [] {
      SameCapOut(E[..|E| - 1], F[..|F| - 1], v);
      assert SameEdge(E[|E| - 1], F[|F| - 1]);
    }
  }
}
