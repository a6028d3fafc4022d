/** Sequences of map calls on one address space, and its whole life from protect to unprotect (x86/qemu/vme.c). */
module MapCalls {
  import opened Bits
  import opened Options
  import opened Perm
  import opened PageTables
  import opened Vme
  import opened AddressSpace
  import opened Teardown

  /** The arguments of map: none asks for the page at va to be unmapped. */
  datatype Call = Call(va: nat, pa: nat, none: bool, write: bool)

  /** The translation a call asks for. */
  function Wanted(x: Call): Option<Page> {
    if x.none then None else Some(Page(x.pa + PTE_P + PTE_U + (if x.write then PTE_W else 0), 0, Rights(x.write, true)))
  }

  /** The flat map, call by call: what path q, translated by e at first, is translated by at the end. */
  function After(levels: nat, bits: nat, calls: seq<Call>, q: seq<nat>, e: Option<Page>): Option<Page> {
    if calls == [] then e
    else
      var last := calls[|calls| - 1];
      if Path(levels, bits, last.va) == q then Wanted(last) else After(levels, bits, calls[..|calls| - 1], q, e)
  }

  /** What map demands: an aligned address of the user's area, mapped before exactly when it is to be unmapped. */
  predicate Accepted(lo: nat, hi: nat, x: Call, before: Option<Page>) {
    lo <= x.va < hi && x.va % PGSIZE == 0 && x.pa % PGSIZE == 0 && (before.Some? <==> x.none)
  }

  /** Call k meets these demands when it is made. */
  ghost predicate AcceptedAt(c: Config, mem: Memory, bits: nat, lo: nat, hi: nat, calls: seq<Call>, k: nat)
    requires k < |calls|
  {
    var q := Path(c.levels, bits, calls[k].va);
    Accepted(lo, hi, calls[k], After(c.levels, bits, calls[..k], q, Lookup(mem, c.root, q)))
  }

  /** The page tables realise the flat map. */
  ghost predicate Realised(c: Config, mem0: Memory, mem: Memory, bits: nat, calls: seq<Call>) {
    forall q: seq<nat> | |q| == c.levels && Indices(q, c.entries) :: RealisedAt(c, mem0, mem, bits, calls, q)
  }

  ghost predicate RealisedAt(c: Config, mem0: Memory, mem: Memory, bits: nat, calls: seq<Call>, q: seq<nat>) {
    Lookup(mem, c.root, q) == After(c.levels, bits, calls, q, Lookup(mem0, c.root, q))
  }

  /**
   * The calls one after the other; a call that panics is the last. done of them succeed, and while there are pages for
   * the tables these are the calls before the first that is not accepted.
   */
  method MapAll(a: AddrSpace, bits: nat, lo: nat, hi: nat, calls: seq<Call>) returns (done: nat)
    requires a.Valid() && a.c.entries == Pow2(bits) && a.c.user
    requires forall v | lo <= v < hi :: IndexOf(a.c.levels, bits, v, 1) !in a.c.kernelSlots
    modifies a`mem, a`pool, a`depth, a`owner
    ensures a.Valid() && done <= |calls| && Realised(a.c, old(a.mem), a.mem, bits, calls[..done])
    ensures forall k | 0 <= k < done :: AcceptedAt(a.c, old(a.mem), bits, lo, hi, calls, k)
    ensures done < |calls| && |old(a.pool)| >= (a.c.levels - 1) * (done + 1) ==>
              !AcceptedAt(a.c, old(a.mem), bits, lo, hi, calls, done)
    ensures forall q: seq<nat> | |q| == a.c.levels && Indices(q, a.c.entries) && q[0] in a.c.kernelSlots ::
              Lookup(a.mem, a.c.root, q) == Lookup(old(a.mem), a.c.root, q)
    ensures a.Others() == old(a.Others()) && a.Stock() == old(a.Stock()) && old(a.owner.Keys) <= a.owner.Keys
  {
    hide Tables, UserTables, Lookup, Path, IndexOf, Pow2, AddrSpace.Others, AddrSpace.Stock, AcceptedAt, Realised,
         After, Wanted;
    ghost var mem0 := a.mem;
    NoCalls(a.c, mem0, bits);
    assert calls[..0] == [];
    done := 0;
    while done < |calls|
      invariant 0 <= done <= |calls| && a.Valid() && Realised(a.c, mem0, a.mem, bits, calls[..done])
      invariant forall k | 0 <= k < done :: AcceptedAt(a.c, mem0, bits, lo, hi, calls, k)
      invariant |a.pool| + (a.c.levels - 1) * done >= |old(a.pool)|
      invariant a.Others() == old(a.Others()) && a.Stock() == old(a.Stock()) && old(a.owner.Keys) <= a.owner.Keys
    {
      var x := calls[done];
      ghost var before, pool := a.mem, a.pool;
      var ok := a.Map(bits, lo, hi, x.va, x.pa, x.none, x.write);
      Judged(a.c, mem0, before, bits, lo, hi, calls, done);
      assert ok ==> Accepted(lo, hi, x, Lookup(before, a.c.root, Path(a.c.levels, bits, x.va)));
      if !ok {
        SameRealised(a.c, mem0, before, a.mem, bits, calls[..done]);
        break;
      }
      WantedIs(x);
      OneMore(a.c, mem0, before, a.mem, bits, calls, done);
      assert (a.c.levels - 1) * (done + 1) == (a.c.levels - 1) * done + (a.c.levels - 1);
      done := done + 1;
    }
    KernelSame(a.c, mem0, a.mem, bits, lo, hi, calls, done);
  }

  lemma WantedIs(x: Call)
    ensures Wanted(x) == if x.none then None
              else Some(Page(x.pa + PTE_P + PTE_U + (if x.write then PTE_W else 0), 0, Rights(x.write, true)))
  {
  }

  lemma NoCalls(c: Config, mem: Memory, bits: nat)
    ensures Realised(c, mem, mem, bits, [])
  {
    hide Lookup;
  }

  lemma SameRealised(c: Config, mem0: Memory, before: Memory, mem: Memory, bits: nat, calls: seq<Call>)
    requires Realised(c, mem0, before, bits, calls) && SameMap(c, before, mem)
    ensures Realised(c, mem0, mem, bits, calls)
  {
    hide Lookup, After;
    forall q: seq<nat> | |q| == c.levels && Indices(q, c.entries)
      ensures RealisedAt(c, mem0, mem, bits, calls, q)
    {
      assert RealisedAt(c, mem0, before, bits, calls, q);
    }
  }

  lemma Judged(c: Config, mem0: Memory, before: Memory, bits: nat, lo: nat, hi: nat, calls: seq<Call>, k: nat)
    requires k < |calls| && Realised(c, mem0, before, bits, calls[..k]) && c.entries == Pow2(bits)
    ensures AcceptedAt(c, mem0, bits, lo, hi, calls, k)
            <==> Accepted(lo, hi, calls[k], Lookup(before, c.root, Path(c.levels, bits, calls[k].va)))
  {
    hide Lookup, After, Pow2;
    assert RealisedAt(c, mem0, before, bits, calls[..k], Path(c.levels, bits, calls[k].va));
  }

  lemma OneMore(c: Config, mem0: Memory, before: Memory, mem: Memory, bits: nat, calls: seq<Call>, k: nat)
    requires k < |calls| && Realised(c, mem0, before, bits, calls[..k])
    requires SameMapBut(c, before, mem, Path(c.levels, bits, calls[k].va))
    requires Lookup(mem, c.root, Path(c.levels, bits, calls[k].va)) == Wanted(calls[k])
    ensures Realised(c, mem0, mem, bits, calls[..k + 1])
  {
    hide Lookup, Path, Wanted;
    assert calls[..k + 1][..k] == calls[..k];
    forall q: seq<nat> | |q| == c.levels && Indices(q, c.entries)
      ensures RealisedAt(c, mem0, mem, bits, calls[..k + 1], q)
    {
      assert RealisedAt(c, mem0, before, bits, calls[..k], q);
    }
  }

  /** No accepted call touches a kernel path. */
  lemma {:induction false} KernelPath(c: Config, mem0: Memory, bits: nat, lo: nat, hi: nat, calls: seq<Call>, k: nat,
                                      q: seq<nat>, e: Option<Page>)
    requires k <= |calls| && |q| == c.levels >= 1 && q[0] in c.kernelSlots
    requires forall v | lo <= v < hi :: IndexOf(c.levels, bits, v, 1) !in c.kernelSlots
    requires forall j | 0 <= j < k :: AcceptedAt(c, mem0, bits, lo, hi, calls, j)
    ensures After(c.levels, bits, calls[..k], q, e) == e
    decreases k
  {
    hide Lookup, IndexOf;
    if k > 0 {
      KernelPath(c, mem0, bits, lo, hi, calls, k - 1, q, e);
      assert calls[..k][..k - 1] == calls[..k - 1];
      assert AcceptedAt(c, mem0, bits, lo, hi, calls, k - 1);
      assert Path(c.levels, bits, calls[k - 1].va)[0] == IndexOf(c.levels, bits, calls[k - 1].va, 1);
    }
  }

  lemma KernelSame(c: Config, mem0: Memory, mem: Memory, bits: nat, lo: nat, hi: nat, calls: seq<Call>, k: nat)
    requires k <= |calls| && c.levels >= 1 && Realised(c, mem0, mem, bits, calls[..k])
    requires forall v | lo <= v < hi :: IndexOf(c.levels, bits, v, 1) !in c.kernelSlots
    requires forall j | 0 <= j < k :: AcceptedAt(c, mem0, bits, lo, hi, calls, j)
    ensures forall q: seq<nat> | |q| == c.levels && Indices(q, c.entries) && q[0] in c.kernelSlots ::
              Lookup(mem, c.root, q) == Lookup(mem0, c.root, q)
  {
    hide Lookup, IndexOf, AcceptedAt, After;
    forall q: seq<nat> | |q| == c.levels && Indices(q, c.entries) && q[0] in c.kernelSlots
      ensures Lookup(mem, c.root, q) == Lookup(mem0, c.root, q)
    {
      assert RealisedAt(c, mem0, mem, bits, calls[..k], q);
      KernelPath(c, mem0, bits, lo, hi, calls, k, q, Lookup(mem0, c.root, q));
    }
  }

  // ---------------------------------------------------------------- from protect to unprotect

  /** Whatever is mapped in between, unprotect leaves the kernel's memory and gives every page back, once. */
  method Life(bits: nat, levels: nat, word: nat, areas: seq<Area>, kernel: Memory, ghost kdepth: map<nat, nat>,
              kpt: nat, pages: seq<nat>, lo: nat, hi: nat, calls: seq<Call>) returns (a: AddrSpace, done: nat)
    requires levels >= 1 && pages != [] && Pool(kernel, pages) && Tables(kernel, Pow2(bits), kdepth)
    requires kpt in kdepth && kpt in kernel && kdepth[kpt] == levels && |kernel[kpt]| == Pow2(bits)
    requires forall r | r in areas :: Aligned(r, Pow2(Shift(levels, bits, 1)), word)
    requires forall i | i in KernelSlots(levels, bits, word, areas) :: i < Pow2(bits) && !User(kernel[kpt][i])
    requires forall v | lo <= v < hi :: IndexOf(levels, bits, v, 1) !in KernelSlots(levels, bits, word, areas)
    ensures fresh(a) && done <= |calls| && a.mem == kernel && Distinct(a.pool)
    ensures forall p :: p in a.pool <==> p in pages
  {
    hide Tables, UserTables, Pow2, Shift, IndexOf, KernelSlots, User, Lookup, Freed;
    a := new AddrSpace.Protect(bits, levels, word, areas, kernel, kdepth, kpt, pages);
    assert pages == [pages[0]] + pages[1..];
    done := MapAll(a, bits, lo, hi, calls);
    ghost var pool, owner := a.pool, a.owner;
    TablesNotFree(a);
    Unprotect(a);
    AllBack(pool, a.pool, owner.Keys, pages);
  }

  lemma AllBack(pool: seq<nat>, pool': seq<nat>, tables: set<nat>, pages: seq<nat>)
    requires Freed(pool, pool', tables) && Distinct(pool) && (forall p | p in tables :: p !in pool)
    requires (tables + set p | p in pool) == set p | p in pages
    ensures Distinct(pool') && forall p :: p in pool' <==> p in pages
  {
    var freed := pool'[|pool|..];
    assert pool' == pool + freed;
    DistinctAppend(pool, freed);
    forall p
      ensures p in pool' <==> p in pages
    {
      assert p in pool' <==> p in pool || p in freed;
      assert p in (tables + set r | r in pool) <==> p in set r | r in pages;
    }
  }
}
