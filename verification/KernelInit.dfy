/** vme_init: the kernel's own page tables, made by one walk for each page of its areas (x86/qemu/vme.c). */
module KernelInit {
  import opened Bits
  import opened Options
  import opened Perm
  import opened PageTables
  import opened Vme
  import opened AddressSpace

  /** The pages of an area, by their first addresses. */
  function AreaPages(word: nat, a: Area): set<nat>
    requires Aligned(a, PGSIZE, word)
  {
    set k | 0 <= k < Count(a, PGSIZE, word) :: Along(a, PGSIZE, word, k)
  }

  /** The pages of the kernel's areas. */
  function KernelPages(word: nat, areas: seq<Area>): set<nat>
    requires forall a | a in areas :: Aligned(a, PGSIZE, word)
  {
    if areas == [] then {}
    else
      var a := areas[|areas| - 1];
      KernelPages(word, areas[..|areas| - 1]) + if a.kernel then AreaPages(word, a) else {}
  }

  function Floor(va: nat): (r: nat)
    ensures r <= va
  {
    va - va % PGSIZE
  }

  /** Exactly the addresses in the given pages are mapped, each to itself, writeable, and not for the user. */
  ghost predicate IdentityOn(c: Config, mem: Memory, bits: nat, pages: set<nat>) {
    forall va: nat | va < Pow2(Shift(c.levels, bits, 0)) :: IdentityAt(c, mem, bits, pages, va)
  }

  ghost predicate IdentityAt(c: Config, mem: Memory, bits: nat, pages: set<nat>, va: nat) {
    Lookup(mem, c.root, Path(c.levels, bits, va)) == if Floor(va) in pages
        then Some(Page(Floor(va) + PTE_P + PTE_W, 0, Rights(true, false))) else None
  }

  /** The index sequences of the tables that walks to these pages need. */
  ghost function TablePaths(levels: nat, bits: nat, pages: set<nat>): set<seq<nat>> {
    {[]} + set d, j | d in pages && 0 <= j < levels :: Path(levels, bits, d)[..j]
  }

  lemma MorePaths(levels: nat, bits: nat, pages: set<nat>, d: nat)
    requires levels >= 1
    ensures TablePaths(levels, bits, pages + {d}) == TablePaths(levels, bits, pages) + Prefixes(Path(levels, bits, d))
  {
    hide Path;
    var path := Path(levels, bits, d);
    assert path[..0] == [];
    forall x
      ensures x in TablePaths(levels, bits, pages + {d})
              <==> x in TablePaths(levels, bits, pages) || x in Prefixes(path)
    {
      if x in Prefixes(path) {
        var j :| 0 <= j < |path| && x == path[..j];
        assert d in pages + {d} && x == Path(levels, bits, d)[..j];
      }
    }
  }

  lemma PathsMonotone(levels: nat, bits: nat, pages: set<nat>, all: set<nat>)
    requires pages <= all
    ensures TablePaths(levels, bits, pages) <= TablePaths(levels, bits, all)
  {
  }

  lemma PageBits()
    ensures Pow2(12) == PGSIZE
  {
    assert Pow2(12) == 4096;
  }

  /** Addresses have the same path exactly when they are on the same page. */
  lemma SamePage(levels: nat, bits: nat, va: nat, cur: nat)
    requires va < Pow2(Shift(levels, bits, 0)) && cur < Pow2(Shift(levels, bits, 0)) && cur % PGSIZE == 0
    ensures Path(levels, bits, va) == Path(levels, bits, cur) <==> Floor(va) == cur
  {
    hide Pow2, Path;
    PageBits();
    DivModBound(va, PGSIZE);
    DivModBound(cur, PGSIZE);
    if Path(levels, bits, va) == Path(levels, bits, cur) {
      PathInjective(levels, bits, va, cur, levels);
    }
    if Floor(va) == cur {
      MulDivMod(va, PGSIZE, cur / PGSIZE, va % PGSIZE);
      forall i | 1 <= i <= levels
        ensures IndexOf(levels, bits, va, i) == IndexOf(levels, bits, cur, i)
      {
        SameQuotient(va, cur, bits * (levels - i));
      }
      PathFrom(levels, bits, va, cur);
    }
  }

  lemma PathFrom(levels: nat, bits: nat, va: nat, cur: nat)
    requires forall i | 1 <= i <= levels :: IndexOf(levels, bits, va, i) == IndexOf(levels, bits, cur, i)
    ensures Path(levels, bits, va) == Path(levels, bits, cur)
  {
    hide IndexOf;
  }

  lemma SameQuotient(va: nat, cur: nat, k: nat)
    requires va / PGSIZE == cur / PGSIZE
    ensures va / Pow2(12 + k) == cur / Pow2(12 + k)
  {
    hide Pow2;
    PageBits();
    Pow2Add(12, k);
    DivMul(va, PGSIZE, Pow2(k));
    DivMul(cur, PGSIZE, Pow2(k));
  }

  // ---------------------------------------------------------------- the loops

  /** The tables so far are those that the pages done need, and map these pages only. */
  ghost predicate Done(a: AddrSpace, bits: nat, pages: set<nat>, stock: set<nat>)
    reads a
  {
    && a.Valid() && !a.c.user && a.c.kernelSlots == {} && a.c.entries == Pow2(bits) && a.Others() == map[]
    && IdentityOn(a.c, a.mem, bits, pages) && a.Stock() == stock
    && a.owner.Values == TablePaths(a.c.levels, bits, pages)
  }

  /** The allocator ran dry before the tables for these pages were made. */
  ghost predicate OutOfPages(a: AddrSpace, bits: nat, pages: set<nat>, stock: set<nat>)
    reads a
  {
    && a.Valid() && a.pool == [] && a.Stock() == stock
    && a.owner.Values < TablePaths(a.c.levels, bits, pages)
  }

  /** vme.c:105: the walk for one page and the entry written. */
  method MapPage(a: AddrSpace, bits: nat, cur: nat, ghost pages: set<nat>, ghost stock: set<nat>) returns (ok: bool)
    requires Done(a, bits, pages, stock) && cur % PGSIZE == 0 && cur < Pow2(Shift(a.c.levels, bits, 0))
    modifies a`mem, a`pool, a`depth, a`owner
    ensures ok ==> Done(a, bits, pages + {cur}, stock)
    ensures !ok ==> OutOfPages(a, bits, pages + {cur}, stock)
  {
    hide Tables, UserTables, Path, Pow2, IdentityOn, TablePaths, Prefixes, Lookup, Or, AddrSpace.Stock,
         AddrSpace.Others;
    var path := Path(a.c.levels, bits, cur);
    PathShape(a.c.levels, bits, cur);
    MorePaths(a.c.levels, bits, pages, cur);
    ghost var mem0 := a.mem;
    var page, index;
    ok, page, index := a.Ptwalk(path, PTE_W);
    if ok {
      ghost var mem1 := a.mem;
      OwnedFacts(a.c, a.mem, a.depth, a.owner, page);
      IndexBelow(a.owner[page], index, path, a.c.entries);
      EntryBits(0, cur, PTE_P + PTE_W);
      a.SetLeaf(page, index, Or(cur, PTE_P + PTE_W));
      MorePages(a.c, mem0, mem1, a.mem, bits, pages, cur);
    }
  }

  lemma PathShape(levels: nat, bits: nat, va: nat)
    ensures |Path(levels, bits, va)| == levels && Indices(Path(levels, bits, va), Pow2(bits))
  {
  }

  lemma MorePages(c: Config, mem0: Memory, mem1: Memory, mem: Memory, bits: nat, pages: set<nat>, cur: nat)
    requires cur % PGSIZE == 0 && cur < Pow2(Shift(c.levels, bits, 0)) && c.entries == Pow2(bits)
    requires IdentityOn(c, mem0, bits, pages) && SameMap(c, mem0, mem1)
    requires SameMapBut(c, mem1, mem, Path(c.levels, bits, cur))
    requires Lookup(mem, c.root, Path(c.levels, bits, cur)) == Some(Page(cur + PTE_P + PTE_W, 0, Rights(true, false)))
    ensures IdentityOn(c, mem, bits, pages + {cur})
  {
    hide Pow2, Path, Lookup, Floor;
    forall va: nat | va < Pow2(Shift(c.levels, bits, 0))
      ensures IdentityAt(c, mem, bits, pages + {cur}, va)
    {
      assert IdentityAt(c, mem0, bits, pages, va);
      PathShape(c.levels, bits, va);
      SamePage(c.levels, bits, va, cur);
    }
  }

  /** vme.c:102-106; addresses wrap around at the end of the last area. */
  method MapArea(a: AddrSpace, bits: nat, word: nat, area: Area, ghost pages: set<nat>, ghost stock: set<nat>)
    returns (ok: bool)
    requires Done(a, bits, pages, stock) && Aligned(area, PGSIZE, word) && area.start % PGSIZE == 0
    requires word == Pow2(Shift(a.c.levels, bits, 0)) && word % PGSIZE == 0
    modifies a`mem, a`pool, a`depth, a`owner
    ensures ok ==> Done(a, bits, pages + AreaPages(word, area), stock)
    ensures !ok ==> OutOfPages(a, bits, pages + AreaPages(word, area), stock)
  {
    hide Done, OutOfPages, Along, Count, Aligned, Pow2, Shift;
    var cur := area.start;
    ghost var k, done := 0, pages;
    AreaStart(area, word);
    FirstStep(area, PGSIZE, word);
    ArrivesAtEnd(area, PGSIZE, word, 0);
    while cur != area.end
      invariant 0 <= k <= Count(area, PGSIZE, word) && cur == Along(area, PGSIZE, word, k) < word && cur % PGSIZE == 0
      invariant cur == area.end <==> k == Count(area, PGSIZE, word)
      invariant done == pages + set j | 0 <= j < k :: Along(area, PGSIZE, word, j)
      invariant Done(a, bits, done, stock)
      decreases Count(area, PGSIZE, word) - k
    {
      ok := MapPage(a, bits, cur, done, stock);
      done := done + {cur};
      if !ok {
        StillOut(a, bits, done, pages + AreaPages(word, area), stock);
        return;
      }
      NextStep(area, PGSIZE, word, k);
      NextAligned(cur, word);
      cur := (cur + PGSIZE) % word;
      k := k + 1;
      ArrivesAtEnd(area, PGSIZE, word, k);
    }
    assert done == pages + AreaPages(word, area);
    ok := true;
  }

  lemma AreaStart(a: Area, word: nat)
    requires Aligned(a, PGSIZE, word)
    ensures a.start < word
  {
  }

  lemma NextAligned(cur: nat, word: nat)
    requires cur % PGSIZE == 0 && word > 0 && word % PGSIZE == 0
    ensures (cur + PGSIZE) % word < word && ((cur + PGSIZE) % word) % PGSIZE == 0
  {
    DivModBound(cur + PGSIZE, word);
    var q, r, u, v := (cur + PGSIZE) / word, (cur + PGSIZE) % word, cur / PGSIZE, word / PGSIZE;
    assert cur == u * PGSIZE && word == v * PGSIZE;
    assert q * word == (q * v) * PGSIZE;
    assert r == (u + 1 - q * v) * PGSIZE;
    MulDivMod(r, PGSIZE, u + 1 - q * v, 0);
  }

  lemma StillOut(a: AddrSpace, bits: nat, pages: set<nat>, all: set<nat>, stock: set<nat>)
    requires OutOfPages(a, bits, pages, stock) && pages <= all
    ensures OutOfPages(a, bits, all, stock)
  {
    PathsMonotone(a.c.levels, bits, pages, all);
  }

  /**
   * vme.c:97-109: the walks for all kernel pages. They succeed exactly when there is a page for each table, and leave
   * the kernel's addresses mapped to themselves, and no others. Null where the code panics.
   */
  method VmeInit(bits: nat, levels: nat, word: nat, areas: seq<Area>, pages: seq<nat>) returns (a: AddrSpace?)
    requires levels >= 1 && word == Pow2(Shift(levels, bits, 0)) && word % PGSIZE == 0 && Pool(map[], pages)
    requires forall r | r in areas :: Aligned(r, PGSIZE, word) && r.start % PGSIZE == 0
    requires KernelPages(word, areas) != {}
    ensures a != null <==> |pages| >= |TablePaths(levels, bits, KernelPages(word, areas))|
    ensures a != null ==>
              && fresh(a) && Done(a, bits, KernelPages(word, areas), set p | p in pages)
              && a.c == Config(Pow2(bits), levels, pages[0], {}, false)
              && |a.pool| == |pages| - |TablePaths(levels, bits, KernelPages(word, areas))|
  {
    hide Done, OutOfPages, Pow2, Shift, TablePaths, AreaPages;
    ghost var stock := set p | p in pages;
    if pages == [] {
      RootPath(levels, bits, KernelPages(word, areas));
      return null;
    }
    var k := new AddrSpace.Kernel(bits, levels, pages);
    StartDone(k, bits, pages);
    var i := 0;
    while i < |areas|
      invariant 0 <= i <= |areas| && Done(k, bits, KernelPages(word, areas[..i]), stock)
    {
      NextArea(word, areas, i);
      if areas[i].kernel {
        var ok := MapArea(k, bits, word, areas[i], KernelPages(word, areas[..i]), stock);
        if !ok {
          MoreAreas(word, areas, i + 1);
          StillOut(k, bits, KernelPages(word, areas[..i + 1]), KernelPages(word, areas), stock);
          TooFew(k, bits, KernelPages(word, areas), pages);
          return null;
        }
      }
      i := i + 1;
    }
    assert areas[..i] == areas;
    Enough(k, bits, KernelPages(word, areas), pages);
    a := k;
  }

  lemma RootPath(levels: nat, bits: nat, pages: set<nat>)
    ensures |TablePaths(levels, bits, pages)| > 0
  {
    assert [] in TablePaths(levels, bits, pages);
  }

  lemma NextArea(word: nat, areas: seq<Area>, i: nat)
    requires i < |areas| && forall a | a in areas :: Aligned(a, PGSIZE, word)
    ensures KernelPages(word, areas[..i + 1])
         == if areas[i].kernel then KernelPages(word, areas[..i]) + AreaPages(word, areas[i])
             else KernelPages(word, areas[..i])
  {
    hide AreaPages;
    assert areas[..i + 1][..i] == areas[..i];
  }

  lemma {:induction false} MoreAreas(word: nat, areas: seq<Area>, i: nat)
    requires i <= |areas| && forall a | a in areas :: Aligned(a, PGSIZE, word)
    ensures KernelPages(word, areas[..i]) <= KernelPages(word, areas)
    decreases |areas| - i
  {
    if i < |areas| {
      MoreAreas(word, areas, i + 1);
      NextArea(word, areas, i);
    } else {
      assert areas[..i] == areas;
    }
  }

  lemma StartDone(a: AddrSpace, bits: nat, pages: seq<nat>)
    requires a.Valid() && pages != [] && a.c.entries == Pow2(bits) && !a.c.user && a.c.kernelSlots == {}
    requires a.c.root == pages[0]
    requires a.owner == map[a.c.root := []] && a.mem == map[a.c.root := ZeroPage(Pow2(bits))] && a.pool == pages[1..]
    ensures Done(a, bits, {}, set p | p in pages)
  {
    hide Tables, UserTables, Pow2, Path;
    forall va: nat | va < Pow2(Shift(a.c.levels, bits, 0))
      ensures IdentityAt(a.c, a.mem, bits, {}, va)
    {
      EmptyTable(a.mem, a.c.root, a.c.entries, Path(a.c.levels, bits, va));
    }
    assert a.owner[a.c.root] in a.owner.Values;
    assert a.owner.Values == {[]};
    assert pages == [pages[0]] + pages[1..];
  }

  // ---------------------------------------------------------------- how many pages

  /** A table for each index sequence. */
  lemma TableCount(a: AddrSpace, pages: seq<nat>)
    requires a.Valid() && Distinct(pages) && a.Stock() == set p | p in pages
    ensures |a.owner.Values| + |a.pool| == |pages|
  {
    hide AddrSpace.Valid, Distinct;
    OwnersCount(a);
    TablesNotFree(a);
    StockCount(a.owner.Keys, a.pool, pages);
  }

  lemma StockCount(tables: set<nat>, free: seq<nat>, pages: seq<nat>)
    requires Distinct(free) && Distinct(pages) && (forall p | p in tables :: p !in free)
    requires (tables + set p | p in free) == set p | p in pages
    ensures |tables| + |free| == |pages|
  {
    hide Distinct;
    DistinctCardinality<nat>(pages);
    DistinctCardinality<nat>(free);
    var x, all: set<nat> := set p | p in free, set p | p in pages;
    assert tables !! x && tables + x == all;
    assert |tables + x| == |tables| + |x|;
  }

  lemma OwnersCount(a: AddrSpace)
    requires a.Valid()
    ensures |a.owner.Values| == |a.owner.Keys|
  {
    hide Tables, UserTables;
    forall p, q | p in a.owner && q in a.owner && a.owner[p] == a.owner[q]
      ensures p == q
    {
      OwnerInjective(a.c, a.mem, a.depth, a.owner, p, q);
    }
    ValueCount(a.owner, a.owner.Keys);
    assert a.owner.Values == set p | p in a.owner.Keys :: a.owner[p];
  }

  lemma {:induction false} ValueCount(m: map<nat, seq<nat>>, keys: set<nat>)
    requires keys <= m.Keys && forall p, q | p in m && q in m && m[p] == m[q] :: p == q
    ensures |set p | p in keys :: m[p]| == |keys|
    decreases |keys|
  {
    if keys != {} {
      var x :| x in keys;
      ValueCount(m, keys - {x});
      assert (set p | p in keys :: m[p]) == (set p | p in keys - {x} :: m[p]) + {m[x]};
    }
  }

  lemma TooFew(a: AddrSpace, bits: nat, all: set<nat>, pages: seq<nat>)
    requires OutOfPages(a, bits, all, set p | p in pages) && Distinct(pages)
    ensures |pages| < |TablePaths(a.c.levels, bits, all)|
  {
    hide TablePaths, AddrSpace.Valid, AddrSpace.Stock;
    TableCount(a, pages);
    var have, need := a.owner.Values, TablePaths(a.c.levels, bits, all);
    assert need == have + (need - have);
    var x :| x in need - have;
    assert |need| == |have| + |need - have|;
  }

  lemma Enough(a: AddrSpace, bits: nat, all: set<nat>, pages: seq<nat>)
    requires Done(a, bits, all, set p | p in pages) && Distinct(pages)
    ensures |a.pool| == |pages| - |TablePaths(a.c.levels, bits, all)|
  {
    hide TablePaths, AddrSpace.Valid, AddrSpace.Stock;
    TableCount(a, pages);
  }
}
