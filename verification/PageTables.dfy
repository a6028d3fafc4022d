/** Multi-level page tables as values: walking, and what a change to one entry does (x86/qemu/vme.c). */
module PageTables {
  import opened Bits
  import opened Options

  const PGSIZE := 4096

  // x86.h:24-27
  const PTE_P := 1
  const PTE_W := 2
  const PTE_U := 4

  /** What the entries of a walk permit together: writing, and access by the user. */
  datatype Rights = Rights(write: bool, user: bool)

  /**
   * What a path is translated by: an entry, how many levels of tables it makes superfluous (0 for a page of PGSIZE,
   * more for a large one), and what all entries on the way permit.
   */
  datatype Page = Page(entry: nat, below: nat, rights: Rights)

  /** Table pages by address, each a sequence of entries. */
  type Memory = map<nat, seq<nat>>

  predicate Present(e: nat) { e % 2 == 1 }

  predicate Writeable(e: nat) { (e / 2) % 2 == 1 }

  predicate User(e: nat) { (e / 4) % 2 == 1 }

  function RightsOf(e: nat): Rights { Rights(Writeable(e), User(e)) }

  /** A right is granted when every entry grants it. */
  function Both(a: Rights, b: Rights): Rights { Rights(a.write && b.write, a.user && b.user) }

  /** The PTE_PS bit: above the last level, the entry maps a large page and leads to no table. */
  predicate Large(e: nat) { (e / 128) % 2 == 1 }

  /** vme.c:53-55 */
  function BaseOf(e: nat): nat { e - e % PGSIZE }

  /** The flag tests of vme.c:66 and 80, and the or of an aligned address with flags. */
  lemma EntryBits(e: nat, base: nat, flags: nat)
    requires base % PGSIZE == 0 && flags < 8
    ensures (And(e, PTE_P) != 0 <==> Present(e)) && (And(e, PTE_U) != 0 <==> User(e))
    ensures Or(base, flags) == base + flags && BaseOf(base + flags) == base
    ensures Present(base + flags) == (flags % 2 == 1) && User(base + flags) == (flags >= 4) && !Large(base + flags)
    ensures Writeable(base + flags) == ((flags / 2) % 2 == 1)
  {
    assert Pow2(1) == 2 && Pow2(2) == 4 && Pow2(12) == 4096;
    AndLowMask(e, 1, 2);
    AndHighMask(e, 1, 2, 4, e / 4, 4);
    AndLowMask(e / 4, 1, 2);
    OrDisjoint(base, flags, 12, 4096);
    FlagArithmetic(base, flags);
  }

  lemma FlagArithmetic(base: nat, flags: nat)
    requires base % PGSIZE == 0 && flags < 8
    ensures (base + flags) % PGSIZE == flags && (base + flags) % 2 == flags % 2 && ((base + flags) / 4) % 2 == flags / 4
    ensures ((base + flags) / 128) % 2 == 0 && ((base + flags) / 2) % 2 == (flags / 2) % 2
  {
    var q := base / PGSIZE;
    MulDivMod(base + flags, PGSIZE, q, flags);
    MulDivMod(base + flags, 2, 2048 * q + flags / 2, flags % 2);
    MulDivMod(base + flags, 4, 1024 * q + flags / 4, flags % 4);
    MulDivMod(1024 * q + flags / 4, 2, 512 * q, flags / 4);
    MulDivMod(base + flags, 128, 32 * q, flags);
    MulDivMod(32 * q, 2, 16 * q, 0);
    MulDivMod(2048 * q + flags / 2, 2, 1024 * q + flags / 4, (flags / 2) % 2);
  }

  // ---------------------------------------------------------------- addresses

  /** The shift of level i; for i = 0, the width of a translated address. */
  function Shift(levels: nat, bits: nat, i: nat): nat
    requires i <= levels
  {
    12 + bits * (levels - i)
  }

  /** Level i of ptlevels selects bits index bits; the masks and shifts of vme.c:5-20 are these. */
  function IndexOf(levels: nat, bits: nat, va: nat, i: nat): (r: nat)
    requires 1 <= i <= levels
    ensures r < Pow2(bits)
  {
    (va / Pow2(Shift(levels, bits, i))) % Pow2(bits)
  }

  /** vme.c:49-51: the mask selects, the shift moves down. */
  lemma IndexByMask(levels: nat, bits: nat, va: nat, i: nat, mask: nat)
    requires 1 <= i <= levels && mask == (Pow2(bits) - 1) * Pow2(Shift(levels, bits, i))
    ensures And(va, mask) / Pow2(Shift(levels, bits, i)) == IndexOf(levels, bits, va, i)
  {
    hide And, Pow2;
    var s := Shift(levels, bits, i);
    AndHighMask(va, Pow2(bits) - 1, s, Pow2(s), va / Pow2(s), mask);
    AndLowMask(va / Pow2(s), bits, Pow2(bits));
    MulDivMod(And(va, mask), Pow2(s), (va / Pow2(s)) % Pow2(bits), 0);
  }

  /** The indices at levels 1 .. ptlevels. */
  function Path(levels: nat, bits: nat, va: nat): (r: seq<nat>)
    ensures |r| == levels && forall j | 0 <= j < levels :: r[j] < Pow2(bits)
  {
    seq(levels, j requires 0 <= j < levels => IndexOf(levels, bits, va, j + 1))
  }

  /** Different pages have different paths. */
  lemma {:induction false} PathInjective(levels: nat, bits: nat, va: nat, vb: nat, i: nat)
    requires i <= levels && Path(levels, bits, va) == Path(levels, bits, vb)
    requires va < Pow2(Shift(levels, bits, 0)) && vb < Pow2(Shift(levels, bits, 0))
    ensures va / Pow2(Shift(levels, bits, i)) == vb / Pow2(Shift(levels, bits, i))
    decreases i
  {
    hide Pow2, Shift, Path;
    if i == 0 {
      MulDivMod(va, Pow2(Shift(levels, bits, 0)), 0, va);
      MulDivMod(vb, Pow2(Shift(levels, bits, 0)), 0, vb);
    } else {
      PathInjective(levels, bits, va, vb, i - 1);
      var s := Shift(levels, bits, i);
      NextShift(levels, bits, i);
      Pow2Add(s, bits);
      SameIndex(levels, bits, va, vb, i);
      Digits(va, vb, Pow2(s), Pow2(bits));
    }
  }

  lemma NextShift(levels: nat, bits: nat, i: nat)
    requires 1 <= i <= levels
    ensures Shift(levels, bits, i - 1) == Shift(levels, bits, i) + bits
  {
  }

  lemma SameIndex(levels: nat, bits: nat, va: nat, vb: nat, i: nat)
    requires 1 <= i <= levels && Path(levels, bits, va) == Path(levels, bits, vb)
    ensures IndexOf(levels, bits, va, i) == IndexOf(levels, bits, vb, i)
  {
    hide IndexOf;
    assert Path(levels, bits, va)[i - 1] == Path(levels, bits, vb)[i - 1];
  }

  lemma Digits(a: nat, b: nat, s: nat, e: nat)
    requires s > 0 && e > 0 && a / (s * e) == b / (s * e) && (a / s) % e == (b / s) % e
    ensures a / s == b / s
  {
    DivMul(a, s, e);
    DivMul(b, s, e);
    DivModBound(a / s, e);
    DivModBound(b / s, e);
  }

  /** pt[i] = e for the table at page t. */
  function SetEntry(mem: Memory, t: nat, i: nat, e: nat): Memory
    requires t in mem && i < |mem[t]|
  {
    var pt: seq<nat> := mem[t][i := e];
    mem[t := pt]
  }

  function ZeroPage(entries: nat): seq<nat> {
    seq(entries, _ => 0)
  }

  // ---------------------------------------------------------------- walking

  /** Where the walk for path q below page p ends, if the tables lead anywhere: page, index, and levels left over. */
  function Leaf(mem: Memory, p: nat, q: seq<nat>): Option<(nat, nat, nat)>
    decreases |q|
  {
    if q == [] || p !in mem || q[0] >= |mem[p]| then None
    else if |q| == 1 then Some((p, q[0], 0))
    else if !Present(mem[p][q[0]]) then None
    else if Large(mem[p][q[0]]) then Some((p, q[0], |q| - 1))
    else Leaf(mem, BaseOf(mem[p][q[0]]), q[1..])
  }

  /** The flat map: what translates path q, and what it permits. */
  function Lookup(mem: Memory, p: nat, q: seq<nat>): Option<Page>
    decreases |q|
  {
    if q == [] || p !in mem || q[0] >= |mem[p]| || !Present(mem[p][q[0]]) then None
    else
      var e := mem[p][q[0]];
      if |q| == 1 || Large(e) then Some(Page(e, |q| - 1, RightsOf(e)))
      else
        match Lookup(mem, BaseOf(e), q[1..])
        case None => None
        case Some(x) => Some(x.(rights := Both(RightsOf(e), x.rights)))
  }

  /** What the entries before the one where the walk ends permit. */
  function Granted(mem: Memory, p: nat, q: seq<nat>): Rights
    decreases |q|
  {
    if |q| <= 1 || p !in mem || q[0] >= |mem[p]| || !Present(mem[p][q[0]]) || Large(mem[p][q[0]])
        then Rights(true, true)
    else Both(RightsOf(mem[p][q[0]]), Granted(mem, BaseOf(mem[p][q[0]]), q[1..]))
  }

  /** The translation is the entry where the walk ends, with the rights granted on the way. */
  lemma {:induction false} LookupLeaf(mem: Memory, p: nat, q: seq<nat>)
    ensures Lookup(mem, p, q) ==
            match Leaf(mem, p, q)
            case None => None
            case Some((r, i, k)) =>
              if r in mem && i < |mem[r]| && Present(mem[r][i])
              then Some(Page(mem[r][i], k, Both(Granted(mem, p, q), RightsOf(mem[r][i]))))
              else None
    decreases |q|
  {
    hide Present, Large, BaseOf, Writeable, User;
    if |q| >= 2 && p in mem && q[0] < |mem[p]| && Present(mem[p][q[0]]) && !Large(mem[p][q[0]]) {
      LookupLeaf(mem, BaseOf(mem[p][q[0]]), q[1..]);
    }
  }

  /**
   * depth[p] levels are walked from table page p on; entries above the last level map large pages or lead to tables one
   * level down.
   */
  ghost predicate Tables(mem: Memory, entries: nat, depth: map<nat, nat>) {
    forall p | p in depth :: Table(mem, entries, depth, p)
  }

  ghost predicate Table(mem: Memory, entries: nat, depth: map<nat, nat>, p: nat) {
    && p in depth && p in mem && |mem[p]| == entries && depth[p] >= 1
    && (depth[p] >= 2 ==> forall i | 0 <= i < entries && Present(mem[p][i]) && !Large(mem[p][i]) ::
          LeadsTo(depth, BaseOf(mem[p][i]), depth[p] - 1))
  }

  ghost predicate LeadsTo(depth: map<nat, nat>, p: nat, d: nat) {
    p in depth && depth[p] == d
  }

  ghost predicate Indices(q: seq<nat>, entries: nat) {
    forall j | 0 <= j < |q| :: q[j] < entries
  }

  /** Memories that agree on the non-final entries of all tables walk alike. */
  lemma {:induction false} SameWalk(mem: Memory, mem': Memory, entries: nat, depth: map<nat, nat>, p: nat, q: seq<nat>)
    requires Tables(mem, entries, depth) && p in depth && |q| == depth[p] && Indices(q, entries)
    requires forall r | r in depth :: r in mem' && |mem'[r]| == entries && (depth[r] >= 2 ==> mem'[r] == mem[r])
    ensures Leaf(mem', p, q) == Leaf(mem, p, q) && Granted(mem', p, q) == Granted(mem, p, q)
    ensures match Leaf(mem, p, q)
            case None => true
            case Some((r, i, k)) => r in depth && depth[r] == k + 1 && i < entries
    decreases |q|
  {
    assert Table(mem, entries, depth, p);
    if |q| >= 2 && Present(mem[p][q[0]]) && !Large(mem[p][q[0]]) {
      assert LeadsTo(depth, BaseOf(mem[p][q[0]]), depth[p] - 1);
      SameWalk(mem, mem', entries, depth, BaseOf(mem[p][q[0]]), q[1..]);
    }
  }

  /** A new empty table hung into an absent entry changes no translation. */
  lemma {:induction false} LinkKeeps(mem: Memory, mem': Memory, entries: nat, depth: map<nat, nat>, t: nat, i: nat,
                                     n: nat, e: nat, p: nat, q: seq<nat>)
    requires Tables(mem, entries, depth) && p in depth && |q| == depth[p] && Indices(q, entries) && entries > 0
    requires t in depth && t in mem && |mem[t]| == entries && depth[t] >= 2 && i < entries && !Present(mem[t][i])
    requires n !in mem && BaseOf(e) == n && !Large(e) && n != t
    requires mem' == SetEntry(mem[n := ZeroPage(entries)], t, i, e)
    ensures Lookup(mem', p, q) == Lookup(mem, p, q)
    decreases |q|
  {
    assert Table(mem, entries, depth, p);
    if |q| >= 2 {
      if p == t && q[0] == i {
        EmptyTable(mem', n, entries, q[1..]);
      } else if Present(mem[p][q[0]]) && !Large(mem[p][q[0]]) {
        assert LeadsTo(depth, BaseOf(mem[p][q[0]]), depth[p] - 1);
        LinkKeeps(mem, mem', entries, depth, t, i, n, e, BaseOf(mem[p][q[0]]), q[1..]);
      }
    }
  }

  lemma EmptyTable(mem: Memory, n: nat, entries: nat, q: seq<nat>)
    requires n in mem && mem[n] == ZeroPage(entries)
    ensures Lookup(mem, n, q) == None
  {
  }

  /** A changed last-level entry changes the translation of exactly the path that ends there. */
  lemma LeafWrite(mem: Memory, mem': Memory, entries: nat, depth: map<nat, nat>, t: nat, i: nat, e: nat, p: nat,
                  q: seq<nat>)
    requires Tables(mem, entries, depth) && p in depth && |q| == depth[p] && Indices(q, entries)
    requires t in depth && t in mem && |mem[t]| == entries && depth[t] == 1 && i < entries
    requires mem' == SetEntry(mem, t, i, e)
    ensures Leaf(mem', p, q) == Leaf(mem, p, q)
    ensures Lookup(mem', p, q)
         == if Leaf(mem, p, q) != Some((t, i, 0)) then Lookup(mem, p, q)
            else if Present(e) then Some(Page(e, 0, Both(Granted(mem, p, q), RightsOf(e)))) else None
  {
    forall r | r in depth
      ensures r in mem' && |mem'[r]| == entries && (depth[r] >= 2 ==> mem'[r] == mem[r])
    {
      assert Table(mem, entries, depth, r);
    }
    SameWalk(mem, mem', entries, depth, p, q);
    LookupLeaf(mem, p, q);
    LookupLeaf(mem', p, q);
  }
}
