/** CoreMark's edits of a singly linked list in place: insert, remove, undo, find (core_list_join.c). */
module ListEdit {
  import opened Perm

  class ListData {
    var data16: int
    var idx: int

    constructor ()
    {
      data16, idx := 0, 0;
    }
  }

  class ListHead {
    var next: ListHead?
    var info: ListData

    constructor (info: ListData)
      ensures this.info == info && next == null
    {
      this.info := info;
      next := null;
    }
  }

  /** p is a NULL-terminated list of exactly the nodes ns. */
  ghost predicate IsList(p: ListHead?, ns: seq<ListHead>)
    reads ns
  {
    if ns == [] then p == null
    else p == ns[0] && Chained(ns) && ns[|ns| - 1].next == null
  }

  ghost predicate Chained(ns: seq<ListHead>)
    reads ns
  {
    forall i | 0 <= i < |ns| - 1 :: ns[i].next == ns[i + 1]
  }

  /** The data the nodes carry, in order. */
  ghost function Infos(ns: seq<ListHead>): (r: seq<ListData>)
    reads ns
    ensures |r| == |ns| && forall i | 0 <= i < |ns| :: r[i] == ns[i].info
  {
    seq(|ns|, i requires 0 <= i < |ns| reads ns => ns[i].info)
  }

  function Delete<A>(s: seq<A>, i: nat): seq<A>
    requires i < |s|
  {
    s[..i] + s[i + 1..]
  }

  function Insert<A>(s: seq<A>, i: nat, x: A): seq<A>
    requires i <= |s|
  {
    s[..i] + [x] + s[i..]
  }

  lemma InsertDelete<A>(s: seq<A>, i: nat)
    requires i < |s|
    ensures |Delete(s, i)| == |s| - 1 && Insert(Delete(s, i), i, s[i]) == s
  {
  }

  lemma DeleteDistinct<A>(s: seq<A>, i: nat)
    requires i < |s| && Distinct(s)
    ensures |Delete(s, i)| == |s| - 1 && Distinct(Delete(s, i)) && s[i] !in Delete(s, i)
    ensures forall j | 0 <= j < i :: Delete(s, i)[j] == s[j]
  {
  }

  /** core_list_join.c:316-326: item takes over the next node's data, and the next node leaves the list with item's. */
  method Remove(head: ListHead, item: ListHead, ghost ns: seq<ListHead>, ghost k: nat) returns (ret: ListHead)
    requires IsList(head, ns) && Distinct(ns) && k + 1 < |ns| && item == ns[k]
    modifies ns[k], ns[k + 1]
    ensures ret == ns[k + 1] && ret.next == null && ret.info == old(item.info)
    ensures IsList(head, Delete(ns, k + 1)) && Infos(Delete(ns, k + 1)) == Delete(old(Infos(ns)), k)
  {
    ret := item.next;
    var tmp := item.info;
    item.info := ret.info;
    ret.info := tmp;
    item.next := item.next.next;
    ret.next := null;
  }

  /** core_list_join.c:345-355. */
  method UndoRemove(head: ListHead, removed: ListHead, modified: ListHead, ghost ns: seq<ListHead>, ghost k: nat)
    returns (ret: ListHead)
    requires IsList(head, ns) && Distinct(ns) && k < |ns| && modified == ns[k] && removed !in ns
    modifies removed, ns[k]
    ensures ret == removed && IsList(head, Insert(ns, k + 1, removed))
    ensures Infos(Insert(ns, k + 1, removed)) == Insert(old(Infos(ns)), k, old(removed.info))
  {
    var tmp := removed.info;
    removed.info := modified.info;
    modified.info := tmp;
    removed.next := modified.next;
    modified.next := removed;
    ret := removed;
  }

  /** Undoing a removal leaves the same nodes in the same order, each with the data it had. */
  method RemoveAndUndo(head: ListHead, item: ListHead, ghost ns: seq<ListHead>, ghost k: nat)
    requires IsList(head, ns) && Distinct(ns) && k + 1 < |ns| && item == ns[k]
    modifies ns[k], ns[k + 1]
    ensures IsList(head, ns) && Infos(ns) == old(Infos(ns))
  {
    hide IsList, Infos, Delete, Insert, Distinct;
    ghost var was := Infos(ns);
    DeleteDistinct(ns, k + 1);
    InsertDelete(ns, k + 1);
    InsertDelete(was, k);
    var removed := Remove(head, item, ns, k);
    var back := UndoRemove(head, removed, item, Delete(ns, k + 1), k);
  }

  /**
   * core_list_join.c:282-303: the next free node and datum, linked in behind insert_point; NULL when either block is
   * used up. The cursors are indices into the blocks.
   */
  method InsertNew(head: ListHead, insertPoint: ListHead, info: ListData, memblock: nat, datablock: nat,
                   nodes: seq<ListHead>, data: seq<ListData>, ghost ns: seq<ListHead>, ghost k: nat)
    returns (newitem: ListHead?, mem: nat, dat: nat)
    requires IsList(head, ns) && Distinct(ns) && k < |ns| && insertPoint == ns[k]
    requires forall i | memblock <= i < |nodes| :: nodes[i] !in ns
    requires forall i | datablock <= i < |data| :: data[i] != info && data[i] !in Infos(ns)
    modifies ns[k], if memblock < |nodes| then {nodes[memblock]} else {}, if datablock < |data| then {data[datablock]}
        else {}
    ensures newitem == null <==> memblock + 1 >= |nodes| || datablock + 1 >= |data|
    ensures newitem == null ==> mem == memblock && dat == datablock && IsList(head, ns) && Infos(ns) == old(Infos(ns))
    ensures newitem != null ==>
              && newitem == nodes[memblock] && mem == memblock + 1 && dat == datablock + 1
              && IsList(head, Insert(ns, k + 1, newitem))
              && Infos(Insert(ns, k + 1, newitem)) == Insert(old(Infos(ns)), k + 1, data[datablock])
              && newitem.info.data16 == info.data16 && newitem.info.idx == info.idx
  {
    mem, dat := memblock, datablock;
    if memblock + 1 >= |nodes| || datablock + 1 >= |data| {
      return null, mem, dat;
    }
    var item := nodes[memblock];
    mem := mem + 1;
    item.next := insertPoint.next;
    insertPoint.next := item;
    item.info := data[datablock];
    dat := dat + 1;
    item.info.data16 := info.data16;
    item.info.idx := info.idx;
    newitem := item;
  }

  /** Whether core_list_find would stop at this node: by idx, or by the low byte of the data when idx is negative. */
  predicate Hit(n: ListHead, idx: int, data16: int)
    reads n, n.info
  {
    if idx >= 0 then n.info.idx == idx else n.info.data16 % 256 == data16
  }

  ghost predicate FirstHit(ns: seq<ListHead>, at: nat, idx: int, data16: int)
    requires at < |ns|
    reads ns, set n | n in ns :: n.info
  {
    Hit(ns[at], idx, data16) && forall i | 0 <= i < at :: !Hit(ns[i], idx, data16)
  }

  /** core_list_join.c:370-380: the first node that matches, or NULL when none does. */
  method Find(list0: ListHead?, info: ListData, ghost ns: seq<ListHead>) returns (list: ListHead?)
    requires IsList(list0, ns)
    ensures list == null ==> forall i | 0 <= i < |ns| :: !Hit(ns[i], info.idx, info.data16)
    ensures list != null ==> exists at | 0 <= at < |ns| :: list == ns[at] && FirstHit(ns, at, info.idx, info.data16)
  {
    list := list0;
    ghost var at := 0;
    if info.idx >= 0 {
      while list != null && list.info.idx != info.idx
        invariant at <= |ns| && if list == null then at == |ns| else at < |ns| && list == ns[at]
        invariant forall i | 0 <= i < at :: !Hit(ns[i], info.idx, info.data16)
        decreases |ns| - at
      {
        assert list.next == if at + 1 < |ns| then ns[at + 1] else null;
        list := list.next;
        at := at + 1;
      }
    } else {
      while list != null && list.info.data16 % 256 != info.data16
        invariant at <= |ns| && if list == null then at == |ns| else at < |ns| && list == ns[at]
        invariant forall i | 0 <= i < at :: !Hit(ns[i], info.idx, info.data16)
        decreases |ns| - at
      {
        assert list.next == if at + 1 < |ns| then ns[at + 1] else null;
        list := list.next;
        at := at + 1;
      }
    }
  }
}
