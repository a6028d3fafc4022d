/** Address spaces over page tables: mapping, unmapping and teardown (x86/qemu/vme.c). */
module Vme {
  import opened PageTables

  /**
   * ptlevels, entries per table, the root table, the root entries that hold the kernel's areas, and whether the tables
   * made here are the user's (protect, map) or the kernel's own (vme_init).
   */
  datatype Config = Config(entries: nat, levels: nat, root: nat, kernelSlots: set<nat>, user: bool)

  // ---------------------------------------------------------------- which tables belong to the address space

  /** owner gives each table page of the address space the indices that lead to it from the root. */
  ghost predicate UserTables(c: Config, mem: Memory, depth: map<nat, nat>, owner: map<nat, seq<nat>>) {
    && c.root in owner && owner[c.root] == []
    && (forall p | p in owner :: Owned(c, mem, depth, owner, p))
    && (forall p | p in owner && p != c.root :: Hung(mem, c.entries, owner, p))
    && forall p | p in depth && p !in owner :: Foreign(mem, depth, owner, p)
  }

  ghost predicate Owned(c: Config, mem: Memory, depth: map<nat, nat>, owner: map<nat, seq<nat>>, p: nat) {
    && p in owner && p in depth && |owner[p]| < c.levels && depth[p] == c.levels - |owner[p]|
    && Indices(owner[p], c.entries)
    && p in mem && |mem[p]| == c.entries && p % PGSIZE == 0
    && (depth[p] >= 2 ==> forall i | 0 <= i < c.entries && Present(mem[p][i]) :: OwnedEntry(c, owner, p, i, mem[p][i]))
  }

  /**
   * An entry made here leads to the table for one more index. The others are the kernel's, in the root of a user
   * address space only, and lead to a kernel table or map a large page.
   */
  ghost predicate OwnedEntry(c: Config, owner: map<nat, seq<nat>>, p: nat, i: nat, e: nat)
    requires p in owner
  {
    if User(e) == c.user then
      Writeable(e) && !Large(e) && BaseOf(e) in owner && owner[BaseOf(e)] == owner[p] + [i]
    else c.user && (Large(e) || BaseOf(e) !in owner) && p == c.root && i in c.kernelSlots
  }

  /** Some entry leads to p. */
  ghost predicate Hung(mem: Memory, entries: nat, owner: map<nat, seq<nat>>, p: nat) {
    exists t, i :: HungFrom(mem, entries, owner, p, t, i)
  }

  ghost predicate HungFrom(mem: Memory, entries: nat, owner: map<nat, seq<nat>>, p: nat, t: nat, i: nat) {
    && p in owner && t in owner && t in mem && i < entries == |mem[t]| && owner[p] == owner[t] + [i]
    && Present(mem[t][i]) && !Large(mem[t][i]) && BaseOf(mem[t][i]) == p
  }

  /** Kernel tables do not lead to user tables. */
  ghost predicate Foreign(mem: Memory, depth: map<nat, nat>, owner: map<nat, seq<nat>>, p: nat) {
    && p in mem && p in depth
    && (depth[p] >= 2 ==> forall i | 0 <= i < |mem[p]| && Present(mem[p][i]) && !Large(mem[p][i]) ::
        BaseOf(mem[p][i]) !in owner)
  }

  /**
   * One step down: from a kernel table to a kernel table, from a user table to the user table for one more index, or
   * into the kernel.
   */
  lemma StepDown(c: Config, mem: Memory, depth: map<nat, nat>, owner: map<nat, seq<nat>>, p: nat, i: nat)
    requires Tables(mem, c.entries, depth) && UserTables(c, mem, depth, owner) && p in depth && p in mem
    requires depth[p] >= 2
    requires i < c.entries == |mem[p]| && Present(mem[p][i]) && !Large(mem[p][i])
    ensures (var next := BaseOf(mem[p][i]);
             && next in depth && depth[next] == depth[p] - 1 && (p !in owner ==> next !in owner)
             && (p in owner && next in owner ==> owner[next] == owner[p] + [i]))
  {
    assert Table(mem, c.entries, depth, p) && LeadsTo(depth, BaseOf(mem[p][i]), depth[p] - 1);
    if p !in owner {
      assert Foreign(mem, depth, owner, p);
    } else {
      assert Owned(c, mem, depth, owner, p) && OwnedEntry(c, owner, p, i, mem[p][i]);
    }
  }

  /** A path that ends in a user table ends where the table's own indices say. */
  lemma {:induction false} LeafOwner(c: Config, mem: Memory, depth: map<nat, nat>, owner: map<nat, seq<nat>>, p: nat,
                                     q: seq<nat>)
    requires Tables(mem, c.entries, depth) && UserTables(c, mem, depth, owner)
    requires p in depth && |q| == depth[p] && Indices(q, c.entries)
    ensures match Leaf(mem, p, q)
            case None => true
            case Some((r, i, k)) => r in owner && k == 0 ==> p in owner && owner[r] + [i] == owner[p] + q
    decreases |q|
  {
    hide UserTables, Present, Large, BaseOf;
    assert Table(mem, c.entries, depth, p);
    if |q| >= 2 && Present(mem[p][q[0]]) && !Large(mem[p][q[0]]) {
      StepDown(c, mem, depth, owner, p, q[0]);
      LeafOwner(c, mem, depth, owner, BaseOf(mem[p][q[0]]), q[1..]);
      if p in owner {
        assert (owner[p] + [q[0]]) + q[1..] == owner[p] + q;
      }
    }
  }

  /** Walking along a user table's own indices arrives at it. */
  lemma {:induction false} WalkToOwned(c: Config, mem: Memory, depth: map<nat, nat>, owner: map<nat, seq<nat>>, p: nat,
                                       rest: seq<nat>)
    requires UserTables(c, mem, depth, owner) && p in owner && rest != []
    ensures Leaf(mem, c.root, owner[p] + rest) == Leaf(mem, p, rest)
    decreases |owner[p]|
  {
    hide Leaf, UserTables, HungFrom;
    RootOwner(c, mem, depth, owner);
    if p == c.root {
      assert owner[p] + rest == rest;
    } else {
      var t, i := Above(c, mem, depth, owner, p);
      WalkToOwned(c, mem, depth, owner, t, [i] + rest);
      assert owner[t] + ([i] + rest) == owner[p] + rest;
      StepInto(mem, c.entries, owner, p, t, i, rest);
    }
  }

  /** The entries on the way to a table made here let everything through, but for the user only in a user's tables. */
  lemma {:induction false} OwnedGrants(c: Config, mem: Memory, depth: map<nat, nat>, owner: map<nat, seq<nat>>, p: nat,
                                       rest: seq<nat>)
    requires UserTables(c, mem, depth, owner) && p in owner && rest != []
    ensures Granted(mem, c.root, owner[p] + rest)
         == Both(Granted(mem, p, rest), Rights(true, p == c.root || c.user))
    decreases |owner[p]|
  {
    hide Granted, UserTables, HungFrom;
    RootOwner(c, mem, depth, owner);
    if p == c.root {
      assert owner[p] + rest == rest;
    } else {
      var t, i := Above(c, mem, depth, owner, p);
      OwnedGrants(c, mem, depth, owner, t, [i] + rest);
      assert owner[t] + ([i] + rest) == owner[p] + rest;
      GrantInto(c, mem, depth, owner, p, t, i, rest);
    }
  }

  lemma GrantInto(c: Config, mem: Memory, depth: map<nat, nat>, owner: map<nat, seq<nat>>, p: nat, t: nat, i: nat,
                  rest: seq<nat>)
    requires UserTables(c, mem, depth, owner) && HungFrom(mem, c.entries, owner, p, t, i) && rest != []
    ensures Granted(mem, t, [i] + rest) == Both(Rights(true, c.user), Granted(mem, p, rest))
  {
    assert ([i] + rest)[1..] == rest;
    assert Owned(c, mem, depth, owner, t) && Owned(c, mem, depth, owner, p);
    assert OwnedEntry(c, owner, t, i, mem[t][i]);
  }

  lemma RootOwner(c: Config, mem: Memory, depth: map<nat, nat>, owner: map<nat, seq<nat>>)
    requires UserTables(c, mem, depth, owner)
    ensures c.root in owner && owner[c.root] == []
  {
  }

  lemma Above(c: Config, mem: Memory, depth: map<nat, nat>, owner: map<nat, seq<nat>>, p: nat) returns (t: nat, i: nat)
    requires UserTables(c, mem, depth, owner) && p in owner && p != c.root
    ensures HungFrom(mem, c.entries, owner, p, t, i) && t in owner && owner[p] == owner[t] + [i]
  {
    assert Hung(mem, c.entries, owner, p);
    t, i :| HungFrom(mem, c.entries, owner, p, t, i);
  }

  lemma StepInto(mem: Memory, entries: nat, owner: map<nat, seq<nat>>, p: nat, t: nat, i: nat, rest: seq<nat>)
    requires HungFrom(mem, entries, owner, p, t, i) && rest != []
    ensures Leaf(mem, t, [i] + rest) == Leaf(mem, p, rest)
  {
    assert ([i] + rest)[1..] == rest;
  }

  /** Two user tables with the same indices are the same table. */
  lemma {:induction false} OwnerInjective(c: Config, mem: Memory, depth: map<nat, nat>, owner: map<nat, seq<nat>>,
                                          a: nat, b: nat)
    requires UserTables(c, mem, depth, owner) && a in owner && b in owner && owner[a] == owner[b]
    ensures a == b
    decreases |owner[a]|
  {
    RootOwner(c, mem, depth, owner);
    if a != c.root {
      var t, i := Above(c, mem, depth, owner, a);
      if b != c.root {
        var u, j := Above(c, mem, depth, owner, b);
        LastIndex(owner[t], i, owner[u], j);
        OwnerInjective(c, mem, depth, owner, t, u);
      }
    } else if b != c.root {
      var u, j := Above(c, mem, depth, owner, b);
    }
  }

  lemma LastIndex(x: seq<nat>, i: nat, y: seq<nat>, j: nat)
    requires x + [i] == y + [j]
    ensures x == y && i == j
  {
    assert (x + [i])[..|x|] == x && (y + [j])[..|y|] == y;
    assert (x + [i])[|x|] == i && (y + [j])[|y|] == j;
  }

  // ---------------------------------------------------------------- changes

  /** A fresh table hung into an absent entry of user table t. */
  lemma LinkUser(c: Config, mem: Memory, mem': Memory, depth: map<nat, nat>, owner: map<nat, seq<nat>>, t: nat, i: nat,
                 n: nat, e: nat)
    requires Tables(mem, c.entries, depth) && UserTables(c, mem, depth, owner)
    requires t in owner && t in mem && |mem[t]| == c.entries && t in depth && depth[t] >= 2 && i < c.entries
    requires !Present(mem[t][i])
    requires n !in mem && n != t && n % PGSIZE == 0 && Present(e) && User(e) == c.user && Writeable(e) && !Large(e)
    requires BaseOf(e) == n
    requires mem' == SetEntry(mem[n := ZeroPage(c.entries)], t, i, e)
    ensures n !in depth && n !in owner
    ensures Tables(mem', c.entries, depth[n := depth[t] - 1])
    ensures UserTables(c, mem', depth[n := depth[t] - 1], owner[n := owner[t] + [i]])
  {
    hide Present, User, Large, BaseOf, Foreign, Hung;
    forall p | p in depth
      ensures p in mem && p != n
    {
      assert Table(mem, c.entries, depth, p);
    }
    LinkTables(mem, mem', c.entries, depth, t, i, n, e);
    forall p | p in owner
      ensures p in depth
    {
      assert Owned(c, mem, depth, owner, p);
    }
    var depth', owner' := depth[n := depth[t] - 1], owner[n := owner[t] + [i]];
    assert Owned(c, mem, depth, owner, t);
    forall p | p in owner'
      ensures Owned(c, mem', depth', owner', p)
    {
      LinkOwned(c, mem, mem', depth, owner, t, i, n, e, p);
    }
    forall p | p in owner' && p != c.root
      ensures Hung(mem', c.entries, owner', p)
    {
      LinkHung(c, mem, mem', depth, owner, t, i, n, e, p);
    }
    forall p | p in depth' && p !in owner'
      ensures Foreign(mem', depth', owner', p)
    {
      assert Table(mem, c.entries, depth, p);
      LinkForeign(c, mem, mem', depth, owner, t, i, n, e, p);
    }
  }

  lemma LinkForeign(c: Config, mem: Memory, mem': Memory, depth: map<nat, nat>, owner: map<nat, seq<nat>>, t: nat,
                    i: nat, n: nat, e: nat, p: nat)
    requires UserTables(c, mem, depth, owner) && Table(mem, c.entries, depth, p) && t in owner && t in mem && t in depth
    requires i < |mem[t]|
    requires n !in depth && p !in owner && n != t && mem' == SetEntry(mem[n := ZeroPage(c.entries)], t, i, e)
    ensures Foreign(mem', depth[n := depth[t] - 1], owner[n := owner[t] + [i]], p)
  {
    hide Present, User, Large, BaseOf;
    assert Foreign(mem, depth, owner, p);
    ForeignStays(mem, c.entries, depth, owner, p, n);
    assert mem'[p] == mem[p];
  }

  lemma ForeignStays(mem: Memory, entries: nat, depth: map<nat, nat>, owner: map<nat, seq<nat>>, p: nat, n: nat)
    requires Table(mem, entries, depth, p) && Foreign(mem, depth, owner, p) && n !in depth
    ensures depth[p] >= 2 ==> forall i | 0 <= i < |mem[p]| && Present(mem[p][i]) && !Large(mem[p][i]) ::
              BaseOf(mem[p][i]) !in owner && BaseOf(mem[p][i]) != n
  {
    if depth[p] >= 2 {
      forall i | 0 <= i < |mem[p]| && Present(mem[p][i]) && !Large(mem[p][i])
        ensures BaseOf(mem[p][i]) != n
      {
        assert LeadsTo(depth, BaseOf(mem[p][i]), depth[p] - 1);
      }
    }
  }

  lemma LinkTables(mem: Memory, mem': Memory, entries: nat, depth: map<nat, nat>, t: nat, i: nat, n: nat, e: nat)
    requires Tables(mem, entries, depth) && n !in depth && n != t
    requires t in mem && |mem[t]| == entries && t in depth && depth[t] >= 2 && i < entries && BaseOf(e) == n
    requires mem' == SetEntry(mem[n := ZeroPage(entries)], t, i, e)
    ensures Tables(mem', entries, depth[n := depth[t] - 1])
  {
    var depth' := depth[n := depth[t] - 1];
    forall p | p in depth'
      ensures Table(mem', entries, depth', p)
    {
      if p != n {
        assert Table(mem, entries, depth, p);
        if depth'[p] >= 2 {
          forall j | 0 <= j < entries && Present(mem'[p][j]) && !Large(mem'[p][j])
            ensures LeadsTo(depth', BaseOf(mem'[p][j]), depth'[p] - 1)
          {
            if !(p == t && j == i) {
              assert mem'[p][j] == mem[p][j];
              assert LeadsTo(depth, BaseOf(mem[p][j]), depth[p] - 1);
            }
          }
        }
      }
    }
  }

  lemma LinkOwned(c: Config, mem: Memory, mem': Memory, depth: map<nat, nat>, owner: map<nat, seq<nat>>, t: nat,
                  i: nat, n: nat, e: nat, p: nat)
    requires UserTables(c, mem, depth, owner) && Tables(mem, c.entries, depth)
    requires Owned(c, mem, depth, owner, t) && depth[t] >= 2 && i < c.entries && !Present(mem[t][i])
    requires n !in mem && n !in depth && n !in owner && n % PGSIZE == 0 && Present(e) && User(e) == c.user
    requires Writeable(e) && !Large(e) && BaseOf(e) == n
    requires n != t && mem' == SetEntry(mem[n := ZeroPage(c.entries)], t, i, e)
    requires p in owner || p == n
    ensures Owned(c, mem', depth[n := depth[t] - 1], owner[n := owner[t] + [i]], p)
  {
    hide Present, User, Writeable, Large, BaseOf, UserTables;
    if p == n {
      LinkFresh(c, mem, mem', depth, owner, t, i, n, e);
    } else {
      OwnedOf(c, mem, depth, owner, p);
      LinkOld(c, mem, mem', depth, owner, t, i, n, e, p);
    }
  }

  /** The fresh table has no present entry. */
  lemma LinkFresh(c: Config, mem: Memory, mem': Memory, depth: map<nat, nat>, owner: map<nat, seq<nat>>, t: nat,
                  i: nat, n: nat, e: nat)
    requires Owned(c, mem, depth, owner, t) && depth[t] >= 2 && i < c.entries && n % PGSIZE == 0
    requires n != t && mem' == SetEntry(mem[n := ZeroPage(c.entries)], t, i, e)
    ensures Owned(c, mem', depth[n := depth[t] - 1], owner[n := owner[t] + [i]], n)
  {
    hide User, Writeable, Large, BaseOf;
  }

  lemma LinkOld(c: Config, mem: Memory, mem': Memory, depth: map<nat, nat>, owner: map<nat, seq<nat>>, t: nat,
                i: nat, n: nat, e: nat, p: nat)
    requires Owned(c, mem, depth, owner, p) && Table(mem, c.entries, depth, p)
    requires Owned(c, mem, depth, owner, t) && i < c.entries && n !in mem && n !in depth && n !in owner
    requires Present(e) && User(e) == c.user && Writeable(e) && !Large(e) && BaseOf(e) == n
    requires n != t && mem' == SetEntry(mem[n := ZeroPage(c.entries)], t, i, e)
    ensures Owned(c, mem', depth[n := depth[t] - 1], owner[n := owner[t] + [i]], p)
  {
    hide Present, User, Writeable, Large, BaseOf;
    var depth', owner' := depth[n := depth[t] - 1], owner[n := owner[t] + [i]];
    if depth'[p] >= 2 {
      forall j | 0 <= j < c.entries && Present(mem'[p][j])
        ensures OwnedEntry(c, owner', p, j, mem'[p][j])
      {
        if !(p == t && j == i) {
          assert mem'[p][j] == mem[p][j];
          assert OwnedEntry(c, owner, p, j, mem[p][j]);
          if !Large(mem[p][j]) {
            assert LeadsTo(depth, BaseOf(mem[p][j]), depth[p] - 1);
          }
        }
      }
    }
  }

  lemma OwnedOf(c: Config, mem: Memory, depth: map<nat, nat>, owner: map<nat, seq<nat>>, p: nat)
    requires UserTables(c, mem, depth, owner) && p in owner
    ensures Owned(c, mem, depth, owner, p)
  {
  }

  lemma LinkHung(c: Config, mem: Memory, mem': Memory, depth: map<nat, nat>, owner: map<nat, seq<nat>>, t: nat, i: nat,
                 n: nat, e: nat, p: nat)
    requires t in owner && t in mem && |mem[t]| == c.entries && i < c.entries && !Present(mem[t][i]) && n !in owner
    requires n != t
    requires n !in mem && Present(e) && !Large(e) && BaseOf(e) == n
    requires mem' == SetEntry(mem[n := ZeroPage(c.entries)], t, i, e)
    requires p == n || (p in owner && Hung(mem, c.entries, owner, p))
    ensures Hung(mem', c.entries, owner[n := owner[t] + [i]], p)
  {
    var owner' := owner[n := owner[t] + [i]];
    if p == n {
      assert HungFrom(mem', c.entries, owner', p, t, i);
    } else {
      var u, j :| HungFrom(mem, c.entries, owner, p, u, j);
      assert HungFrom(mem', c.entries, owner', p, u, j);
    }
  }

  /** A last-level entry of user table t changed. */
  lemma LeafUser(c: Config, mem: Memory, mem': Memory, depth: map<nat, nat>, owner: map<nat, seq<nat>>, t: nat, i: nat,
                 e: nat)
    requires Tables(mem, c.entries, depth) && UserTables(c, mem, depth, owner)
    requires t in owner && t in mem && |mem[t]| == c.entries && t in depth && depth[t] == 1 && i < c.entries
    requires mem' == SetEntry(mem, t, i, e)
    ensures Tables(mem', c.entries, depth) && UserTables(c, mem', depth, owner)
  {
    hide Present, User, Writeable, Large, BaseOf;
    forall p | p in depth
      ensures Table(mem', c.entries, depth, p)
    {
      assert Table(mem, c.entries, depth, p);
    }
    forall p | p in owner
      ensures Owned(c, mem', depth, owner, p)
    {
      assert Owned(c, mem, depth, owner, p);
    }
    forall p | p in owner && p != c.root
      ensures Hung(mem', c.entries, owner, p)
    {
      assert Hung(mem, c.entries, owner, p);
      var u, j :| HungFrom(mem, c.entries, owner, p, u, j);
      assert Owned(c, mem, depth, owner, u);
      assert Owned(c, mem, depth, owner, p);
      assert HungFrom(mem', c.entries, owner, p, u, j);
    }
    forall p | p in depth && p !in owner
      ensures Foreign(mem', depth, owner, p)
    {
      assert Foreign(mem, depth, owner, p);
    }
  }
}
