/** ptwalk, map, protect and unprotect on an address space (x86/qemu/vme.c). */
module AddressSpace {
  import opened Bits
  import opened Options
  import opened Perm
  import BitMask
  import opened PageTables
  import opened Vme

  /** The allocator's free pages: fresh, aligned, each listed once. */
  ghost predicate Pool(mem: Memory, pool: seq<nat>) {
    Distinct(pool) && forall k | 0 <= k < |pool| :: pool[k] !in mem && pool[k] % PGSIZE == 0
  }

  /** All translations, user and kernel. */
  ghost predicate SameMap(c: Config, mem: Memory, mem': Memory) {
    forall q: seq<nat> | |q| == c.levels && Indices(q, c.entries) :: Lookup(mem', c.root, q) == Lookup(mem, c.root, q)
  }

  /** All translations but that of one path. */
  ghost predicate SameMapBut(c: Config, mem: Memory, mem': Memory, path: seq<nat>) {
    forall q: seq<nat> | |q| == c.levels && Indices(q, c.entries) && q != path ::
        Lookup(mem', c.root, q) == Lookup(mem, c.root, q)
  }

  /** Every entry of the walk is the user's and writeable. */
  predicate UserMayWrite(mem: Memory, root: nat, q: seq<nat>) {
    Lookup(mem, root, q).Some? && Lookup(mem, root, q).value.rights == Rights(true, true)
  }

  /** The flags of the entries that lead to tables, vme.c:99-105 and 146. */
  function LinkFlags(c: Config): nat {
    if c.user then PTE_W + PTE_U else PTE_W
  }

  /** The indices that lead to the tables on the way along a path. */
  ghost function Prefixes(path: seq<nat>): set<seq<nat>> {
    set j | 0 <= j < |path| :: path[..j]
  }

  lemma RootFacts(c: Config, mem: Memory, depth: map<nat, nat>, owner: map<nat, seq<nat>>)
    requires UserTables(c, mem, depth, owner)
    ensures c.root in owner && owner[c.root] == [] && c.root in depth && depth[c.root] == c.levels
    ensures c.root % PGSIZE == 0
  {
    assert Owned(c, mem, depth, owner, c.root);
  }

  lemma OwnedFacts(c: Config, mem: Memory, depth: map<nat, nat>, owner: map<nat, seq<nat>>, p: nat)
    requires UserTables(c, mem, depth, owner) && p in owner
    ensures p in depth && p in mem && |mem[p]| == c.entries && |owner[p]| < c.levels
    ensures depth[p] == c.levels - |owner[p]|
    ensures p % PGSIZE == 0
  {
    assert Owned(c, mem, depth, owner, p);
  }

  lemma LinkSameMap(c: Config, mem: Memory, mem': Memory, depth: map<nat, nat>, owner: map<nat, seq<nat>>, t: nat,
                    i: nat, n: nat, e: nat)
    requires Tables(mem, c.entries, depth) && UserTables(c, mem, depth, owner) && t in owner && t in depth
    requires depth[t] >= 2
    requires t in mem && |mem[t]| == c.entries && i < c.entries && !Present(mem[t][i]) && n !in mem && n != t
    requires BaseOf(e) == n && !Large(e)
    requires mem' == SetEntry(mem[n := ZeroPage(c.entries)], t, i, e)
    ensures SameMap(c, mem, mem')
  {
    RootFacts(c, mem, depth, owner);
    forall q: seq<nat> | |q| == c.levels && Indices(q, c.entries)
      ensures Lookup(mem', c.root, q) == Lookup(mem, c.root, q)
    {
      LinkKeeps(mem, mem', c.entries, depth, t, i, n, e, c.root, q);
    }
  }

  /** How the last-level entry e of table t translates. */
  function LastLevel(c: Config, t: nat, e: nat): Option<Page> {
    if Present(e) then Some(Page(e, 0, Both(Rights(true, t == c.root || c.user), RightsOf(e)))) else None
  }

  /** Writing the last-level entry of a user table changes one translation. */
  lemma LeafSameMap(c: Config, mem: Memory, mem': Memory, depth: map<nat, nat>, owner: map<nat, seq<nat>>, t: nat,
                    i: nat, e: nat)
    requires Tables(mem, c.entries, depth) && UserTables(c, mem, depth, owner) && t in owner && t in depth
    requires depth[t] == 1
    requires t in mem && |mem[t]| == c.entries && i < c.entries && mem' == SetEntry(mem, t, i, e)
    ensures SameMapBut(c, mem, mem', owner[t] + [i])
    ensures |owner[t] + [i]| == c.levels && Indices(owner[t] + [i], c.entries)
    ensures Lookup(mem', c.root, owner[t] + [i]) == LastLevel(c, t, e)
  {
    RootFacts(c, mem, depth, owner);
    assert Owned(c, mem, depth, owner, t);
    var path := owner[t] + [i];
    forall q: seq<nat> | |q| == c.levels && Indices(q, c.entries) && q != path
      ensures Lookup(mem', c.root, q) == Lookup(mem, c.root, q)
    {
      LeafWrite(mem, mem', c.entries, depth, t, i, e, c.root, q);
      LeafOwner(c, mem, depth, owner, c.root, q);
      assert [] + q == q;
    }
    LeafWrite(mem, mem', c.entries, depth, t, i, e, c.root, path);
    WalkToOwned(c, mem, depth, owner, t, [i]);
    OwnedGrants(c, mem, depth, owner, t, [i]);
  }

  // ---------------------------------------------------------------- the kernel's areas

  /** vm_areas of vme.c:24-33; an area may end where addresses wrap around, at 0. */
  datatype Area = Area(start: nat, end: nat, kernel: bool)

  /** Going through an area in steps arrives at its end. */
  predicate Aligned(a: Area, step: nat, word: nat) {
    step > 0 && a.start < word && a.end < word && ((a.end - a.start) % word) % step == 0
  }

  function Count(a: Area, step: nat, word: nat): nat
    requires Aligned(a, step, word)
  {
    ((a.end - a.start) % word) / step
  }

  /** The first address of the k-th step. */
  function Along(a: Area, step: nat, word: nat, k: nat): nat
    requires word > 0
  {
    (a.start + k * step) % word
  }

  /** The root entries of an area. */
  function AreaSlots(levels: nat, bits: nat, word: nat, a: Area): set<nat>
    requires levels >= 1 && Aligned(a, Pow2(Shift(levels, bits, 1)), word)
  {
    var step := Pow2(Shift(levels, bits, 1));
    set k | 0 <= k < Count(a, step, word) :: IndexOf(levels, bits, Along(a, step, word, k), 1)
  }

  /** The root entries of the kernel's areas. */
  function KernelSlots(levels: nat, bits: nat, word: nat, areas: seq<Area>): set<nat>
    requires levels >= 1 && forall a | a in areas :: Aligned(a, Pow2(Shift(levels, bits, 1)), word)
  {
    if areas == [] then {}
    else
      var a := areas[|areas| - 1];
      KernelSlots(levels, bits, word, areas[..|areas| - 1]) + if a.kernel then AreaSlots(levels, bits, word, a) else {}
  }

  /** The loop of vme.c:124-126 passes the end of the area exactly once. */
  lemma ArrivesAtEnd(a: Area, step: nat, word: nat, k: nat)
    requires Aligned(a, step, word) && k <= Count(a, step, word)
    ensures Along(a, step, word, k) == a.end <==> k == Count(a, step, word)
  {
    var n := Count(a, step, word);
    var d := (a.end - a.start) % word;
    DivModBound(d, step);
    assert d == n * step;
    MulMono(k, n, step);
    if a.start + k * step < word {
      MulDivMod(a.start + k * step, word, 0, a.start + k * step);
    } else {
      MulDivMod(a.start + k * step, word, 1, a.start + k * step - word);
    }
    Difference(a.end - a.start, word);
    if k < n {
      MulMono(k + 1, n, step);
      assert (k + 1) * step == k * step + step;
    }
  }

  lemma Difference(x: int, word: nat)
    requires x < word && 0 < word + x
    ensures x % word == if x >= 0 then x else x + word
  {
    if x >= 0 {
      MulDivMod(x, word, 0, x);
    } else {
      MulDivMod(x + word, word, 0, x + word);
      assert x % word == (x + word) % word;
    }
  }

  lemma NextStep(a: Area, step: nat, word: nat, k: nat)
    requires word > 0
    ensures (Along(a, step, word, k) + step) % word == Along(a, step, word, k + 1)
  {
    var x := a.start + k * step;
    DivModBound(x, word);
    var y := x % word + step;
    DivModBound(y, word);
    assert (k + 1) * step == k * step + step;
    var q := x / word + y / word;
    assert q * word == (x / word) * word + (y / word) * word;
    MulDivMod(x + step, word, q, y % word);
  }

  /** vme.c:118-131: a zeroed table with the entries of the kernel's areas. */
  method CopyAreas(bits: nat, levels: nat, word: nat, areas: seq<Area>, kpt: seq<nat>) returns (upt: seq<nat>)
    requires levels >= 1 && |kpt| == Pow2(bits)
    requires forall a | a in areas :: Aligned(a, Pow2(Shift(levels, bits, 1)), word)
    ensures |upt| == Pow2(bits)
    ensures forall i | 0 <= i < Pow2(bits) ::
              upt[i] == if i in KernelSlots(levels, bits, word, areas) then kpt[i] else 0
  {
    hide Pow2, Shift;
    upt := ZeroPage(Pow2(bits));
    var i := 0;
    while i < |areas|
      invariant 0 <= i <= |areas| && |upt| == Pow2(bits)
      invariant forall j | 0 <= j < Pow2(bits) ::
                  upt[j] == if j in KernelSlots(levels, bits, word, areas[..i]) then kpt[j] else 0
    {
      assert areas[..i + 1][..i] == areas[..i];
      if areas[i].kernel {
        upt := CopyArea(bits, levels, word, areas[i], kpt, upt, KernelSlots(levels, bits, word, areas[..i]));
      }
      i := i + 1;
    }
    assert areas[..i] == areas;
  }

  /** vme.c:124-129 */
  method CopyArea(bits: nat, levels: nat, word: nat, a: Area, kpt: seq<nat>, upt0: seq<nat>, ghost slots: set<nat>)
    returns (upt: seq<nat>)
    requires levels >= 1 && |kpt| == |upt0| == Pow2(bits) && Aligned(a, Pow2(Shift(levels, bits, 1)), word)
    requires forall j | 0 <= j < Pow2(bits) :: upt0[j] == if j in slots then kpt[j] else 0
    ensures |upt| == Pow2(bits)
    ensures forall j | 0 <= j < Pow2(bits) ::
              upt[j] == if j in slots + AreaSlots(levels, bits, word, a) then kpt[j] else 0
  {
    hide Pow2, Shift, IndexOf, Along, Count, Aligned;
    var step := Pow2(Shift(levels, bits, 1));
    upt := upt0;
    var cur := a.start;
    ghost var k, done := 0, slots;
    FirstStep(a, step, word);
    ArrivesAtEnd(a, step, word, 0);
    while cur != a.end
      invariant word > 0 && 0 <= k <= Count(a, step, word) && cur == Along(a, step, word, k) && |upt| == Pow2(bits)
      invariant cur == a.end <==> k == Count(a, step, word)
      invariant done == slots + set j | 0 <= j < k :: IndexOf(levels, bits, Along(a, step, word, j), 1)
      invariant forall j | 0 <= j < Pow2(bits) :: upt[j] == if j in done then kpt[j] else 0
      decreases Count(a, step, word) - k
    {
      var index := IndexOf(levels, bits, cur, 1);
      upt := upt[index := kpt[index]];
      NextStep(a, step, word, k);
      cur := (cur + step) % word;
      done := done + {index};
      k := k + 1;
      ArrivesAtEnd(a, step, word, k);
    }
  }

  lemma FirstStep(a: Area, step: nat, word: nat)
    requires Aligned(a, step, word)
    ensures word > 0 && Along(a, step, word, 0) == a.start
  {
    MulDivMod(a.start, word, 0, a.start);
  }

  class AddrSpace {
    const c: Config
    var mem: Memory
    var pool: seq<nat>
    ghost var depth: map<nat, nat>
    ghost var owner: map<nat, seq<nat>>

    ghost predicate Valid()
      reads this
    {
      && c.entries > 0 && c.levels > 0 && Tables(mem, c.entries, depth) && UserTables(c, mem, depth, owner)
      && Pool(mem, pool)
    }

    /** The pages that are not tables of this address space, with what they hold. */
    ghost function Others(): Memory
      reads this
    {
      mem - owner.Keys
    }

    /** The pages that are tables of this address space or free. */
    ghost function Stock(): set<nat>
      reads this
    {
      owner.Keys + set p | p in pool
    }

    /** vme.c:40-47 for the next free page, hung into entry i of table t (vme.c:66-68). */
    method Grow(t: nat, i: nat, flags: nat) returns (next: nat)
      requires Valid() && t in owner && t in mem && |mem[t]| == c.entries && t in depth && depth[t] >= 2
      requires i < c.entries
      requires !Present(mem[t][i]) && pool != [] && flags == LinkFlags(c)
      modifies `mem, `pool, `depth, `owner
      ensures Valid() && SameMap(c, old(mem), mem) && Others() == old(Others()) && Stock() == old(Stock())
      ensures pool == old(pool)[1..]
      ensures next in owner && next !in old(owner) && next !in old(mem)
      ensures owner == old(owner)[next := old(owner)[t] + [i]]
      ensures next in depth && depth == old(depth)[next := old(depth)[t] - 1]
    {
      hide Tables, UserTables, Present, User, Large, BaseOf, Or, SameMap;
      next := pool[0];
      var e := Or(Or(next, PTE_P), flags);
      NewEntry(next, flags);
      pool := pool[1..];
      var mem1 := mem[next := ZeroPage(c.entries)];
      mem := SetEntry(mem1, t, i, e);
      LinkUser(c, old(mem), mem, depth, owner, t, i, next, e);
      LinkSameMap(c, old(mem), mem, depth, owner, t, i, next, e);
      depth := depth[next := depth[t] - 1];
      owner := owner[next := owner[t] + [i]];
      PoolLess(old(mem), old(pool), mem, t);
    }

    /**
     * vme.c:57-75: the last-level slot of an address, with the tables above it made as needed. False: no page is left.
     */
    method Ptwalk(path: seq<nat>, flags: nat) returns (ok: bool, page: nat, index: nat)
      requires Valid() && |path| == c.levels && Indices(path, c.entries) && path[0] !in c.kernelSlots
      requires flags == LinkFlags(c)
      modifies `mem, `pool, `depth, `owner
      ensures Valid() && SameMap(c, old(mem), mem) && Others() == old(Others()) && Stock() == old(Stock())
      ensures forall p | p in old(owner) :: p in owner && owner[p] == old(owner)[p]
      ensures old(owner.Values) <= owner.Values <= old(owner.Values) + Prefixes(path)
      ensures ok ==> page in owner && owner[page] + [index] == path && page in depth && depth[page] == 1
      ensures ok ==> Prefixes(path) <= owner.Values
      ensures !ok ==> pool == [] && !(Prefixes(path) <= owner.Values)
      ensures |pool| + c.levels > |old(pool)| && (|old(pool)| + 1 >= c.levels ==> ok)
      ensures Leaf(old(mem), c.root, path).Some? ==> ok && mem == old(mem) && pool == old(pool)
    {
      hide Tables, UserTables, Present, User, Large, BaseOf, And, SameMap, Leaf, Others, Stock, Prefixes;
      var cur, i := c.root, 1;
      RootFacts(c, mem, depth, owner);
      SameRefl(c, mem);
      PrefixesStart(owner, c.root, path);
      while i < c.levels
        invariant 1 <= i <= c.levels && Valid() && cur in owner && owner[cur] == path[..i - 1]
        invariant SameMap(c, old(mem), mem) && Others() == old(Others()) && Stock() == old(Stock())
        invariant forall p | p in old(owner) :: p in owner && owner[p] == old(owner)[p]
        invariant |pool| + i > |old(pool)| && Walked(old(owner), owner, path, i)
        invariant Leaf(old(mem), c.root, path).Some? ==> mem == old(mem) && pool == old(pool)
      {
        RootFacts(c, mem, depth, owner);
        OwnedFacts(c, mem, depth, owner, cur);
        var at := path[i - 1];
        EntryBits(mem[cur][at], 0, 0);
        assert path[..i] == path[..i - 1] + [at];
        if And(mem[cur][at], PTE_P) == 0 {
          AbsentLeaf(c, mem, depth, owner, cur, path);
          if pool == [] {
            NoTable(c, mem, depth, owner, cur, at);
            WalkStops(old(owner), owner, path, i);
            return false, 0, 0;
          }
          ghost var before, mine := mem, owner;
          cur := Grow(cur, at, flags);
          SameTrans(c, old(mem), before, mem);
          WalkedOn(old(owner), mine, owner, path, i, cur);
        } else {
          UserStep(c, mem, depth, owner, cur, at);
          cur := BaseOf(mem[cur][at]);
          WalkedOn(old(owner), owner, owner, path, i, cur);
        }
        i := i + 1;
      }
      OwnedFacts(c, mem, depth, owner, cur);
      WalkedAll(old(owner), owner, path);
      assert path[..c.levels - 1] + [path[c.levels - 1]] == path;
      return true, cur, path[c.levels - 1];
    }

    /**
     * vme.c:141-156. False where the code panics. Only the translation of va changes, and it becomes what was asked
     * for.
     */
    method Map(bits: nat, lo: nat, hi: nat, va: nat, pa: nat, none: bool, write: bool) returns (ok: bool)
      requires Valid() && c.entries == Pow2(bits) && c.user
      requires forall v | lo <= v < hi :: IndexOf(c.levels, bits, v, 1) !in c.kernelSlots
      modifies `mem, `pool, `depth, `owner
      ensures Valid() && SameMapBut(c, old(mem), mem, Path(c.levels, bits, va))
      ensures Others() == old(Others()) && Stock() == old(Stock()) && |pool| + c.levels > |old(pool)|
      ensures old(owner.Keys) <= owner.Keys
      ensures !ok ==> SameMap(c, old(mem), mem)
      ensures ok ==> lo <= va < hi && va % PGSIZE == 0 && pa % PGSIZE == 0
      ensures ok ==> (Lookup(old(mem), c.root, Path(c.levels, bits, va)).Some? <==> none)
      ensures ok ==> Lookup(mem, c.root, Path(c.levels, bits, va))
                     == if none then None
                        else Some(Page(pa + PTE_P + PTE_U + (if write then PTE_W else 0), 0, Rights(write, true)))
      ensures ok ==> (UserMayWrite(mem, c.root, Path(c.levels, bits, va)) <==> !none && write)
      ensures (&& lo <= va < hi && va % PGSIZE == 0 && pa % PGSIZE == 0 && |old(pool)| + 1 >= c.levels
               && (Lookup(old(mem), c.root, Path(c.levels, bits, va)).Some? <==> none)) ==> ok
    {
      hide Tables, UserTables, Present, User, Large, BaseOf, And, Or, Lookup, Leaf, IndexOf, Others, Stock, Prefixes;
      var path := Path(c.levels, bits, va);
      SameRefl(c, mem);
      if !(lo <= va < hi) || va % PGSIZE != 0 || pa % PGSIZE != 0 {
        return false;
      }
      var page, index;
      ok, page, index := Ptwalk(path, PTE_W + PTE_U);
      if !ok {
        return false;
      }
      OwnedFacts(c, mem, depth, owner, page);
      IndexBelow(owner[page], index, path, c.entries);
      LookupAt(c, mem, depth, owner, page, index);
      EntryBits(mem[page][index], 0, 0);
      if none {
        if And(mem[page][index], PTE_P) == 0 {
          return false;
        }
        NotPresentZero();
        SetLeaf(page, index, 0);
      } else {
        if And(mem[page][index], PTE_P) != 0 {
          return false;
        }
        var flags := if write then PTE_P + PTE_U + PTE_W else PTE_P + PTE_U;
        EntryBits(0, pa, flags);
        SetLeaf(page, index, Or(pa, flags));
      }
      ghost var done := mem;
      WalkToOwned(c, mem, depth, owner, page, [index]);
      LeafHere(mem, page, index);
      var again, page2, index2 := Ptwalk(path, PTE_W + PTE_U);
      assert mem == done;
    }

    /** vme.c:97-105 before its loop: nothing but the root, which the first walk would make. */
    constructor Kernel(bits: nat, levels: nat, pages: seq<nat>)
      requires levels >= 1 && pages != [] && Pool(map[], pages)
      ensures Valid() && c == Config(Pow2(bits), levels, pages[0], {}, false) && pool == pages[1..]
      ensures owner == map[c.root := []] && mem == map[c.root := ZeroPage(Pow2(bits))]
    {
      c := Config(Pow2(bits), levels, pages[0], {}, false);
      mem := map[pages[0] := ZeroPage(Pow2(bits))];
      pool := pages[1..];
      depth := map[pages[0] := levels];
      owner := map[pages[0] := []];
      new;
      NotPresentZero();
      assert Table(mem, c.entries, depth, c.root);
      assert Owned(c, mem, depth, owner, c.root);
    }

    /**
     * vme.c:117-135: a new root table with the kernel areas' entries copied from kpt. Kernel addresses are translated
     * as kpt does, the others not at all.
     */
    constructor Protect(bits: nat, levels: nat, word: nat, areas: seq<Area>, kernel: Memory,
                        ghost kdepth: map<nat, nat>, kpt: nat, pages: seq<nat>)
      requires levels >= 1 && pages != [] && Pool(kernel, pages) && Tables(kernel, Pow2(bits), kdepth)
      requires kpt in kdepth && kpt in kernel && kdepth[kpt] == levels && |kernel[kpt]| == Pow2(bits)
      requires forall a | a in areas :: Aligned(a, Pow2(Shift(levels, bits, 1)), word)
      requires forall i | i in KernelSlots(levels, bits, word, areas) :: i < Pow2(bits) && !User(kernel[kpt][i])
      ensures Valid() && c.entries == Pow2(bits) && c.levels == levels && c.root == pages[0] && pool == pages[1..]
      ensures c.kernelSlots == KernelSlots(levels, bits, word, areas) && c.user
      ensures owner == map[c.root := []] && Others() == kernel
      ensures forall q: seq<nat> | |q| == levels && Indices(q, Pow2(bits)) ::
                Lookup(mem, c.root, q) == if q[0] in c.kernelSlots then Lookup(kernel, kpt, q) else None
    {
      var upt := CopyAreas(bits, levels, word, areas, kernel[kpt]);
      var root := pages[0];
      c := Config(Pow2(bits), levels, root, KernelSlots(levels, bits, word, areas), true);
      mem := kernel[root := upt];
      pool := pages[1..];
      depth := kdepth[root := levels];
      owner := map[root := []];
      new;
      NewSpace(c, kernel, kdepth, kpt, upt);
      PoolLess(kernel, pages, mem, kpt);
      forall q: seq<nat> | |q| == levels && Indices(q, Pow2(bits))
        ensures Lookup(mem, c.root, q) == if q[0] in c.kernelSlots then Lookup(kernel, kpt, q) else None
      {
        KernelShared(c, kernel, kdepth, kpt, upt, q);
      }
    }

    /** The last-level entry written, vme.c:149 and 153. */
    method SetLeaf(page: nat, index: nat, e: nat)
      requires Valid() && page in owner && page in depth && depth[page] == 1 && page in mem && |mem[page]| == c.entries
      requires index < c.entries
      modifies `mem
      ensures Valid() && SameMapBut(c, old(mem), mem, owner[page] + [index]) && Others() == old(Others())
      ensures Stock() == old(Stock())
      ensures Lookup(mem, c.root, owner[page] + [index]) == LastLevel(c, page, e)
      ensures page in mem && |mem[page]| == c.entries
    {
      hide Tables, UserTables, Lookup;
      mem := SetEntry(mem, page, index, e);
      LeafUser(c, old(mem), mem, depth, owner, page, index, e);
      LeafSameMap(c, old(mem), mem, depth, owner, page, index, e);
    }
  }

  lemma TablesNotFree(a: AddrSpace)
    requires a.Valid()
    ensures Distinct(a.pool) && forall p | p in a.owner :: p !in a.pool
  {
    hide Tables, UserTables;
    forall p | p in a.owner
      ensures p !in a.pool
    {
      OwnedFacts(a.c, a.mem, a.depth, a.owner, p);
    }
  }

  /** A root with only kernel entries is a user address space with no user tables but itself. */
  lemma NewSpace(c: Config, kernel: Memory, kdepth: map<nat, nat>, kpt: nat, upt: seq<nat>)
    requires c.entries > 0 && c.levels > 0 && Tables(kernel, c.entries, kdepth) && c.root !in kernel
    requires c.root % PGSIZE == 0 && c.user
    requires kpt in kdepth && kpt in kernel && kdepth[kpt] == c.levels && |kernel[kpt]| == c.entries == |upt|
    requires forall i | 0 <= i < c.entries :: upt[i] == if i in c.kernelSlots then kernel[kpt][i] else 0
    requires forall i | i in c.kernelSlots :: i < c.entries && !User(kernel[kpt][i])
    ensures Tables(kernel[c.root := upt], c.entries, kdepth[c.root := c.levels])
    ensures UserTables(c, kernel[c.root := upt], kdepth[c.root := c.levels], map[c.root := []])
  {
    var mem, depth, owner := kernel[c.root := upt], kdepth[c.root := c.levels], map[c.root := []];
    assert Table(kernel, c.entries, kdepth, kpt);
    forall p | p in kdepth
      ensures p in kernel && p != c.root
    {
      assert Table(kernel, c.entries, kdepth, p);
    }
    forall p | p in depth
      ensures Table(mem, c.entries, depth, p)
    {
      NewTable(c, kernel, kdepth, kpt, upt, p);
    }
    forall p | p in depth && p !in owner
      ensures Foreign(mem, depth, owner, p)
    {
      assert Table(kernel, c.entries, kdepth, p);
      ForeignStays(mem, c.entries, kdepth, map[], p, c.root);
    }
    NewRoot(c, kernel, kdepth, kpt, upt);
  }

  lemma NewTable(c: Config, kernel: Memory, kdepth: map<nat, nat>, kpt: nat, upt: seq<nat>, p: nat)
    requires c.entries > 0 && c.levels > 0 && Tables(kernel, c.entries, kdepth) && c.root !in kernel
    requires c.root !in kdepth
    requires kpt in kdepth && kpt in kernel && kdepth[kpt] == c.levels && |kernel[kpt]| == c.entries == |upt|
    requires forall i | 0 <= i < c.entries :: upt[i] == if i in c.kernelSlots then kernel[kpt][i] else 0
    requires p in kdepth || p == c.root
    ensures Table(kernel[c.root := upt], c.entries, kdepth[c.root := c.levels], p)
  {
    var mem, depth := kernel[c.root := upt], kdepth[c.root := c.levels];
    var from := if p == c.root then kpt else p;
    assert Table(kernel, c.entries, kdepth, from);
    if depth[p] >= 2 {
      forall i | 0 <= i < c.entries && Present(mem[p][i]) && !Large(mem[p][i])
        ensures LeadsTo(depth, BaseOf(mem[p][i]), depth[p] - 1)
      {
        assert mem[p][i] == kernel[from][i];
        assert LeadsTo(kdepth, BaseOf(kernel[from][i]), kdepth[from] - 1);
      }
    }
  }

  lemma NewRoot(c: Config, kernel: Memory, kdepth: map<nat, nat>, kpt: nat, upt: seq<nat>)
    requires c.entries > 0 && c.levels > 0 && Tables(kernel, c.entries, kdepth) && c.root % PGSIZE == 0
    requires c.root !in kdepth && c.user
    requires kpt in kdepth && kpt in kernel && kdepth[kpt] == c.levels && |kernel[kpt]| == c.entries == |upt|
    requires forall i | 0 <= i < c.entries :: upt[i] == if i in c.kernelSlots then kernel[kpt][i] else 0
    requires forall i | i in c.kernelSlots :: i < c.entries && !User(kernel[kpt][i])
    ensures Owned(c, kernel[c.root := upt], kdepth[c.root := c.levels], map[c.root := []], c.root)
  {
    assert Table(kernel, c.entries, kdepth, kpt);
    var mem, owner := kernel[c.root := upt], map[c.root := []];
    if c.levels >= 2 {
      forall i | 0 <= i < c.entries && Present(mem[c.root][i])
        ensures OwnedEntry(c, owner, c.root, i, mem[c.root][i])
      {
        if !Large(kernel[kpt][i]) {
          assert LeadsTo(kdepth, BaseOf(kernel[kpt][i]), kdepth[kpt] - 1);
        }
      }
    }
  }

  /** The new root translates the kernel's addresses as the old one, and no others. */
  lemma KernelShared(c: Config, kernel: Memory, kdepth: map<nat, nat>, kpt: nat, upt: seq<nat>, q: seq<nat>)
    requires Tables(kernel, c.entries, kdepth) && c.root !in kernel && |q| == c.levels >= 1 && Indices(q, c.entries)
    requires kpt in kdepth && kpt in kernel && kdepth[kpt] == c.levels && |kernel[kpt]| == c.entries == |upt|
    requires forall i | 0 <= i < c.entries :: upt[i] == if i in c.kernelSlots then kernel[kpt][i] else 0
    ensures Lookup(kernel[c.root := upt], c.root, q) == if q[0] in c.kernelSlots then Lookup(kernel, kpt, q) else None
  {
    var mem, e := kernel[c.root := upt], upt[q[0]];
    assert Table(kernel, c.entries, kdepth, kpt);
    if |q| >= 2 && Present(e) && !Large(e) {
      assert LeadsTo(kdepth, BaseOf(e), kdepth[kpt] - 1);
      forall r | r in kdepth
        ensures r in kernel && r != c.root && |kernel[r]| == c.entries
      {
        assert Table(kernel, c.entries, kdepth, r);
      }
      SameWalk(kernel, mem, c.entries, kdepth, BaseOf(e), q[1..]);
      LookupLeaf(kernel, BaseOf(e), q[1..]);
      LookupLeaf(mem, BaseOf(e), q[1..]);
    }
  }

  lemma LeafHere(mem: Memory, page: nat, index: nat)
    requires page in mem && index < |mem[page]|
    ensures Leaf(mem, page, [index]) == Some((page, index, 0))
  {
  }

  lemma NotPresentZero()
    ensures !Present(0)
  {
  }

  lemma IndexBelow(x: seq<nat>, i: nat, path: seq<nat>, entries: nat)
    requires x + [i] == path && Indices(path, entries)
    ensures i < entries
  {
    assert path[|x|] == i;
  }

  lemma LookupAt(c: Config, mem: Memory, depth: map<nat, nat>, owner: map<nat, seq<nat>>, page: nat, index: nat)
    requires UserTables(c, mem, depth, owner) && page in owner && page in mem && index < |mem[page]|
    ensures Lookup(mem, c.root, owner[page] + [index]).Some? <==> Present(mem[page][index])
  {
    hide Lookup, Leaf, UserTables;
    WalkToOwned(c, mem, depth, owner, page, [index]);
    LeafHere(mem, page, index);
    LookupLeaf(mem, c.root, owner[page] + [index]);
  }

  /** An absent entry above the last level: the path is not translated. */
  lemma AbsentLeaf(c: Config, mem: Memory, depth: map<nat, nat>, owner: map<nat, seq<nat>>, p: nat, path: seq<nat>)
    requires UserTables(c, mem, depth, owner) && p in owner && p in mem && |mem[p]| == c.entries
    requires |owner[p]| + 1 < |path|
    requires owner[p] == path[..|owner[p]|] && path[|owner[p]|] < c.entries && !Present(mem[p][path[|owner[p]|]])
    ensures Leaf(mem, c.root, path) == None
  {
    var rest := path[|owner[p]|..];
    assert owner[p] + rest == path;
    WalkToOwned(c, mem, depth, owner, p, rest);
  }

  /** A present entry on a user path leads to a user table. */
  lemma UserStep(c: Config, mem: Memory, depth: map<nat, nat>, owner: map<nat, seq<nat>>, p: nat, i: nat)
    requires UserTables(c, mem, depth, owner) && p in owner && p in depth && p in mem && depth[p] >= 2
    requires i < |mem[p]| == c.entries
    requires Present(mem[p][i]) && (p == c.root ==> i !in c.kernelSlots)
    ensures User(mem[p][i]) == c.user && BaseOf(mem[p][i]) in owner && owner[BaseOf(mem[p][i])] == owner[p] + [i]
  {
    assert Owned(c, mem, depth, owner, p) && OwnedEntry(c, owner, p, i, mem[p][i]);
  }

  lemma NewEntry(next: nat, flags: nat)
    requires next % PGSIZE == 0 && (flags == PTE_W || flags == PTE_W + PTE_U)
    ensures (var e := Or(Or(next, PTE_P), flags);
             Present(e) && Writeable(e) && (User(e) <==> flags != PTE_W) && !Large(e) && BaseOf(e) == next)
  {
    hide Or;
    assert Pow2(1) == 2;
    EntryBits(0, next, 1);
    EntryBits(0, next, 1 + flags);
    OrTwice(next, flags);
  }

  lemma OrTwice(next: nat, flags: nat)
    requires next % PGSIZE == 0 && (flags == 2 || flags == 6)
    ensures Or(next + 1, flags) == next + 1 + flags
  {
    assert Pow2(12) == 4096 && Or(1, 6) == 7 && Or(1, 2) == 3;
    BitMask.OrAbove(next, 1, flags, 12, 4096);
  }

  // ---------------------------------------------------------------- the tables along a path

  /** After i levels the tables for the first i prefixes are there, and no others are new. */
  ghost predicate Walked(owner0: map<nat, seq<nat>>, owner: map<nat, seq<nat>>, path: seq<nat>, i: nat) {
    && i <= |path| && owner0.Values <= owner.Values
    && (forall x | x in owner.Values :: x in owner0.Values || exists j | 0 <= j < i :: x == path[..j])
    && forall j | 0 <= j < i :: path[..j] in owner.Values
  }

  lemma PrefixesStart(owner: map<nat, seq<nat>>, root: nat, path: seq<nat>)
    requires path != [] && root in owner && owner[root] == []
    ensures Walked(owner, owner, path, 1)
  {
    assert owner[root] in owner.Values && path[..0] == [];
  }

  lemma WalkedOn(owner0: map<nat, seq<nat>>, mine: map<nat, seq<nat>>, owner: map<nat, seq<nat>>, path: seq<nat>,
                 i: nat, p: nat)
    requires Walked(owner0, mine, path, i) && i < |path| && p in owner && owner[p] == path[..i]
    requires owner == mine || (p !in mine && owner == mine[p := path[..i]])
    ensures Walked(owner0, owner, path, i + 1)
  {
    assert owner[p] in owner.Values;
    forall x | x in mine.Values
      ensures x in owner.Values
    {
      var q :| q in mine && mine[q] == x;
      assert owner[q] == x;
    }
    forall x | x in owner.Values && x != path[..i]
      ensures x in mine.Values
    {
      var q :| q in owner && owner[q] == x;
      assert mine[q] == x;
    }
  }

  lemma WalkedAll(owner0: map<nat, seq<nat>>, owner: map<nat, seq<nat>>, path: seq<nat>)
    requires Walked(owner0, owner, path, |path|)
    ensures owner0.Values <= owner.Values <= owner0.Values + Prefixes(path) && Prefixes(path) <= owner.Values
  {
  }

  lemma WalkStops(owner0: map<nat, seq<nat>>, owner: map<nat, seq<nat>>, path: seq<nat>, i: nat)
    requires Walked(owner0, owner, path, i) && i < |path| && path[..i] !in owner.Values
    ensures owner0.Values <= owner.Values <= owner0.Values + Prefixes(path) && !(Prefixes(path) <= owner.Values)
  {
    assert path[..i] in Prefixes(path);
  }

  /** No table belongs to an absent entry. */
  lemma NoTable(c: Config, mem: Memory, depth: map<nat, nat>, owner: map<nat, seq<nat>>, p: nat, i: nat)
    requires UserTables(c, mem, depth, owner) && p in owner && p in mem && i < |mem[p]| && !Present(mem[p][i])
    ensures owner[p] + [i] !in owner.Values
  {
    if owner[p] + [i] in owner.Values {
      var r :| r in owner && owner[r] == owner[p] + [i];
      RootOwner(c, mem, depth, owner);
      var t, j := Above(c, mem, depth, owner, r);
      LastIndex(owner[t], j, owner[p], i);
      OwnerInjective(c, mem, depth, owner, t, p);
    }
  }

  lemma PoolLess(mem: Memory, pool: seq<nat>, mem': Memory, t: nat)
    requires Pool(mem, pool) && pool != [] && t in mem && forall p | p in mem' :: p in mem || p == pool[0]
    ensures Pool(mem', pool[1..])
  {
    forall k | 0 <= k < |pool[1..]|
      ensures pool[1..][k] !in mem' && pool[1..][k] % PGSIZE == 0
    {
      assert pool[1..][k] == pool[k + 1] != pool[0];
    }
  }

  lemma SameRefl(c: Config, mem: Memory)
    ensures SameMap(c, mem, mem)
  {
  }

  lemma SameTrans(c: Config, a: Memory, b: Memory, d: Memory)
    requires SameMap(c, a, b) && SameMap(c, b, d)
    ensures SameMap(c, a, d)
  {
    hide Lookup;
  }
}
