/** Taking an address space apart: every user table is freed, once, and nothing else (x86/qemu/vme.c). */
module Teardown {
  import opened Bits
  import opened Perm
  import opened PageTables
  import opened Vme
  import opened AddressSpace

  /** The user tables below index sequence x, the table with exactly these indices included. */
  ghost function Sub(owner: map<nat, seq<nat>>, x: seq<nat>): set<nat> {
    set q | q in owner && x <= owner[q]
  }

  /** Those of them that entries below k of table x lead to. */
  ghost function Below(owner: map<nat, seq<nat>>, x: seq<nat>, k: nat): set<nat> {
    set q | q in owner && |x| < |owner[q]| && x <= owner[q] && owner[q][|x|] < k
  }

  /** The tables below x are still what they were. */
  ghost predicate Standing(mem: Memory, orig: Memory, owner: map<nat, seq<nat>>, x: seq<nat>) {
    forall q | q in Sub(owner, x) :: q in mem && q in orig && mem[q] == orig[q]
  }

  /** What was freed, in order, each page once. */
  ghost predicate Freed(pool: seq<nat>, pool': seq<nat>, pages: set<nat>) {
    pool <= pool' && Distinct(pool'[|pool|..]) && forall q :: q in pool'[|pool|..] <==> q in pages
  }

  /** Every prefix of a user table's indices belongs to a user table. */
  lemma {:induction false} Ancestor(c: Config, mem: Memory, depth: map<nat, nat>, owner: map<nat, seq<nat>>, q: nat,
                                    x: seq<nat>)
    returns (r: nat)
    requires UserTables(c, mem, depth, owner) && q in owner && x <= owner[q]
    ensures r in owner && owner[r] == x
    decreases |owner[q]|
  {
    RootOwner(c, mem, depth, owner);
    if owner[q] == x {
      r := q;
    } else {
      var t, i := Above(c, mem, depth, owner, q);
      assert x <= owner[t] by { assert owner[q][..|x|] == x; assert owner[t] == owner[q][..|owner[t]|]; }
      r := Ancestor(c, mem, depth, owner, t, x);
    }
  }

  /** If anything hangs below entry i of table p, the entry is a present user entry. */
  lemma EntryThere(c: Config, mem: Memory, depth: map<nat, nat>, owner: map<nat, seq<nat>>, p: nat, i: nat, q: nat)
    requires UserTables(c, mem, depth, owner) && p in owner && q in owner && owner[p] + [i] <= owner[q]
    ensures p in mem && i < |mem[p]| && Present(mem[p][i]) && User(mem[p][i]) == c.user && |owner[p]| + 1 < c.levels
    ensures BaseOf(mem[p][i]) in owner && owner[BaseOf(mem[p][i])] == owner[p] + [i]
  {
    var r := Ancestor(c, mem, depth, owner, q, owner[p] + [i]);
    RootOwner(c, mem, depth, owner);
    var t, j := Above(c, mem, depth, owner, r);
    LastIndex(owner[t], j, owner[p], i);
    OwnerInjective(c, mem, depth, owner, t, p);
    OwnedFacts(c, mem, depth, owner, r);
    assert Owned(c, mem, depth, owner, p) && OwnedEntry(c, owner, p, i, mem[p][i]);
  }

  /** The tables below entries 0 .. k of x are those below 0 .. k - 1 and those below entry k. */
  lemma BelowNext(owner: map<nat, seq<nat>>, x: seq<nat>, k: nat)
    ensures Below(owner, x, k + 1) == Below(owner, x, k) + Sub(owner, x + [k])
    ensures Below(owner, x, k) !! Sub(owner, x + [k])
  {
    forall q
      ensures q in Below(owner, x, k + 1) <==> q in Below(owner, x, k) || q in Sub(owner, x + [k])
      ensures !(q in Below(owner, x, k) && q in Sub(owner, x + [k]))
    {
      if q in owner && |x| < |owner[q]| && x <= owner[q] {
        assert owner[q][..|x| + 1] == x + [owner[q][|x|]];
      }
      if q in Sub(owner, x + [k]) {
        assert owner[q][|x|] == (x + [k])[|x|] && owner[q][..|x|] == x;
      }
    }
  }

  lemma SubParts(c: Config, mem: Memory, depth: map<nat, nat>, owner: map<nat, seq<nat>>, p: nat)
    requires UserTables(c, mem, depth, owner) && p in owner
    ensures Sub(owner, owner[p]) == Below(owner, owner[p], c.entries) + {p} && p !in Below(owner, owner[p], c.entries)
  {
    forall q
      ensures q in Sub(owner, owner[p]) <==> q in Below(owner, owner[p], c.entries) || q == p
    {
      if q in Sub(owner, owner[p]) && q != p {
        if owner[q] == owner[p] {
          OwnerInjective(c, mem, depth, owner, q, p);
          assert false;
        }
        assert Owned(c, mem, depth, owner, q);
      }
    }
  }

  lemma FreedMore(a: seq<nat>, b: seq<nat>, d: seq<nat>, x: set<nat>, y: set<nat>)
    requires Freed(a, b, x) && Freed(b, d, y) && x !! y
    ensures Freed(a, d, x + y)
  {
    var u, v := b[|a|..], d[|b|..];
    assert d[|a|..] == u + v;
    DistinctAppend(u, v);
    forall q
      ensures q in u + v <==> q in x + y
    {
      assert q in u + v <==> q in u || q in v;
    }
  }

  lemma FreedNone(a: seq<nat>)
    ensures Freed(a, a, {})
  {
  }

  lemma FreedOne(a: seq<nat>, p: nat)
    ensures Freed(a, a + [p], {p})
  {
    assert (a + [p])[|a|..] == [p];
  }

  /** pgfree: the page must be allocated, and goes back to the pool. */
  method PgFree(a: AddrSpace, p: nat)
    requires p in a.mem
    modifies a`mem, a`pool
    ensures a.mem == old(a.mem) - {p} && a.pool == old(a.pool) + [p]
  {
    a.mem := a.mem - {p};
    a.pool := a.pool + [p];
  }

  /** vme.c:77-87 */
  method Teardown(a: AddrSpace, level: nat, pt: nat, ghost orig: Memory, ghost depth: map<nat, nat>,
                  ghost owner: map<nat, seq<nat>>)
    requires 1 <= level <= a.c.levels + 1 && UserTables(a.c, orig, depth, owner) && a.c.user
    requires level <= a.c.levels ==> pt in owner && |owner[pt]| == level - 1 && Standing(a.mem, orig, owner, owner[pt])
    modifies a`mem, a`pool
    ensures level > a.c.levels ==> a.mem == old(a.mem) && a.pool == old(a.pool)
    ensures level <= a.c.levels ==>
              a.mem == old(a.mem) - Sub(owner, owner[pt]) && Freed(old(a.pool), a.pool, Sub(owner, owner[pt]))
    decreases a.c.levels + 1 - level
  {
    hide UserTables, Sub, Below, Freed, And, Present, User, BaseOf;
    if level > a.c.levels {
      return;
    }
    ghost var x := owner[pt];
    ghost var start := a.mem;
    OwnedFacts(a.c, orig, depth, owner, pt);
    StandingAt(start, orig, owner, pt);
    FreedNone(a.pool);
    NoneBelow(owner, x);
    SubParts(a.c, orig, depth, owner, pt);
    var index := 0;
    while index < a.c.entries
      invariant 0 <= index <= a.c.entries && a.mem == start - Below(owner, x, index)
      invariant Freed(old(a.pool), a.pool, Below(owner, x, index))
    {
      BelowInSub(a.c, orig, depth, owner, pt, index);
      assert a.mem[pt] == orig[pt];
      var e := a.mem[pt][index];
      EntryBits(e, 0, 0);
      BelowNext(owner, x, index);
      if And(e, PTE_P) != 0 && And(e, PTE_U) != 0 {
        if level < a.c.levels {
          ChildTable(a.c, orig, depth, owner, pt, index);
          StandingBelow(start, a.mem, orig, owner, x, index);
        }
        ghost var before, pool1 := a.mem, a.pool;
        Teardown(a, level + 1, BaseOf(e), orig, depth, owner);
        if level < a.c.levels {
          FreedMore(old(a.pool), pool1, a.pool, Below(owner, x, index), Sub(owner, x + [index]));
        } else {
          NothingThere(a.c, orig, depth, owner, pt, index);
          assert Below(owner, x, index + 1) == Below(owner, x, index);
        }
      } else {
        NothingThere(a.c, orig, depth, owner, pt, index);
        assert Below(owner, x, index + 1) == Below(owner, x, index);
      }
      index := index + 1;
    }
    ghost var pool2 := a.pool;
    PgFree(a, pt);
    FreedOne(pool2, pt);
    FreedMore(old(a.pool), pool2, a.pool, Below(owner, x, a.c.entries), {pt});
  }

  lemma StandingAt(mem: Memory, orig: Memory, owner: map<nat, seq<nat>>, p: nat)
    requires p in owner && Standing(mem, orig, owner, owner[p])
    ensures p in mem && p in orig && mem[p] == orig[p]
  {
    assert p in Sub(owner, owner[p]);
  }

  lemma NoneBelow(owner: map<nat, seq<nat>>, x: seq<nat>)
    ensures Below(owner, x, 0) == {}
  {
  }

  lemma BelowInSub(c: Config, mem: Memory, depth: map<nat, nat>, owner: map<nat, seq<nat>>, p: nat, k: nat)
    requires UserTables(c, mem, depth, owner) && p in owner
    ensures p !in Below(owner, owner[p], k)
  {
  }

  lemma ChildTable(c: Config, mem: Memory, depth: map<nat, nat>, owner: map<nat, seq<nat>>, p: nat, i: nat)
    requires UserTables(c, mem, depth, owner) && p in owner && p in mem && |mem[p]| == c.entries && i < c.entries
    requires |owner[p]| + 1 < c.levels && Present(mem[p][i]) && User(mem[p][i]) == c.user
    ensures BaseOf(mem[p][i]) in owner && owner[BaseOf(mem[p][i])] == owner[p] + [i]
  {
    assert Owned(c, mem, depth, owner, p) && OwnedEntry(c, owner, p, i, mem[p][i]);
  }

  lemma StandingBelow(start: Memory, mem: Memory, orig: Memory, owner: map<nat, seq<nat>>, x: seq<nat>, k: nat)
    requires Standing(start, orig, owner, x) && mem == start - Below(owner, x, k)
    ensures Standing(mem, orig, owner, x + [k])
  {
    BelowNext(owner, x, k);
    forall q | q in Sub(owner, x + [k])
      ensures q in mem && q in orig && mem[q] == orig[q]
    {
      assert owner[q][..|x|] == (x + [k])[..|x|] == x;
      assert q in Sub(owner, x);
    }
  }

  lemma NothingThere(c: Config, mem: Memory, depth: map<nat, nat>, owner: map<nat, seq<nat>>, p: nat, i: nat)
    requires UserTables(c, mem, depth, owner) && p in owner && p in mem && i < |mem[p]|
    requires !(Present(mem[p][i]) && User(mem[p][i]) == c.user) || |owner[p]| + 1 >= c.levels
    ensures Sub(owner, owner[p] + [i]) == {}
  {
    forall q
      ensures q !in Sub(owner, owner[p] + [i])
    {
      if q in Sub(owner, owner[p] + [i]) {
        EntryThere(c, mem, depth, owner, p, i, q);
        assert false;
      }
    }
  }

  /** vme.c:137-139: all user tables are freed, each once; kernel tables and mapped pages stay. */
  method Unprotect(a: AddrSpace)
    requires a.Valid() && a.c.user
    modifies a`mem, a`pool
    ensures a.mem == old(a.Others())
    ensures Freed(old(a.pool), a.pool, old(a.owner.Keys))
  {
    hide UserTables, Freed;
    RootFacts(a.c, a.mem, a.depth, a.owner);
    ghost var owner := a.owner;
    assert Sub(owner, []) == owner.Keys;
    AllStanding(a.c, a.mem, a.depth, owner);
    Teardown(a, 1, a.c.root, a.mem, a.depth, owner);
  }

  lemma AllStanding(c: Config, mem: Memory, depth: map<nat, nat>, owner: map<nat, seq<nat>>)
    requires UserTables(c, mem, depth, owner)
    ensures Standing(mem, mem, owner, [])
  {
    forall q | q in owner
      ensures q in mem
    {
      OwnedFacts(c, mem, depth, owner, q);
    }
  }
}
