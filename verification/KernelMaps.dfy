/** The two configurations of x86/qemu: address spaces over the kernel's own page tables. */
module KernelMaps {
  import opened Bits
  import opened Options
  import opened Perm
  import opened PageTables
  import opened Vme
  import opened AddressSpace
  import opened KernelInit

  lemma Powers()
    ensures Pow2(9) == 512 && Pow2(10) == 1024 && Pow2(12) == 0x1000 && Pow2(21) == 0x20_0000 && Pow2(22) == 0x40_0000
    ensures Pow2(30) == 0x4000_0000 && Pow2(39) == 0x80_0000_0000
  {
    assert Pow2(8) == 256 && Pow2(9) == 512 && Pow2(10) == 1024;
    assert Pow2(12) == 4 * Pow2(10);
    Pow2Add(12, 9);
    Pow2Add(12, 10);
    Pow2Add(21, 9);
    Pow2Add(30, 9);
  }

  /** Every kernel address is mapped to itself by an entry of the given size. */
  ghost predicate Identity(mem: Memory, root: nat, levels: nat, bits: nat, va: nat, below: nat)
    requires below < levels
  {
    exists flags :: MapsTo(mem, root, levels, bits, va, below, flags)
  }

  /** The start of the size bytes that va lies in. */
  function StartOf(va: nat, size: nat): (r: nat)
    requires size > 0
    ensures r <= va
  {
    DivModBound(va, size);
    va - va % size
  }

  /**
   * va lies in a page of that size, the page starts at its own address, and the entries let the kernel write there and
   * the user do nothing.
   */
  ghost predicate MapsTo(mem: Memory, root: nat, levels: nat, bits: nat, va: nat, below: nat, flags: nat)
    requires below < levels
  {
    var size := Pow2(Shift(levels, bits, levels - below));
    && flags < PGSIZE && Present(flags) && !User(flags)
    && Lookup(mem, root, Path(levels, bits, va)) == Some(Page(StartOf(va, size) + flags, below, Rights(true, false)))
  }

  lemma SameIdentity(mem: Memory, root: nat, mem': Memory, root': nat, levels: nat, bits: nat, va: nat, below: nat)
    requires below < levels && Identity(mem, root, levels, bits, va, below)
    requires Lookup(mem', root', Path(levels, bits, va)) == Lookup(mem, root, Path(levels, bits, va))
    ensures Identity(mem', root', levels, bits, va, below)
  {
    var flags :| MapsTo(mem, root, levels, bits, va, below, flags);
    assert MapsTo(mem', root', levels, bits, va, below, flags);
  }

  // ---------------------------------------------------------------- x86_64

  // x86-qemu.h:3-4
  const PML4_ADDR: nat := 0x1000
  const PDPT_ADDR: nat := 0x2000

  /** start64.S:11-12 */
  function Pml4(): (r: seq<nat>)
    ensures |r| == 512 && r[0] == PDPT_ADDR + 3 && forall i | 1 <= i < 512 :: r[i] == 0
  {
    [PDPT_ADDR + 3] + seq(511, _ => 0)
  }

  /** start64.S:14-29: 512 pages of 1 GiB, present, writeable, large. */
  function Pdpt(): (r: seq<nat>)
    ensures |r| == 512 && forall i | 0 <= i < 512 :: r[i] == i * 0x4000_0000 + 0x83
  {
    forall i | 0 <= i < 512
      ensures HugePage(i) == i * 0x4000_0000 + 0x83
    {
      HalvesMeet(i);
    }
    seq(512, i requires 0 <= i < 512 => HugePage(i))
  }

  /** The entry as its two 32-bit halves: i shifted up by 30 with the flags, and i shifted down by 2. */
  function HugePage(i: nat): nat {
    (i * 0x4000_0000) % 0x1_0000_0000 + 0x83 + 0x1_0000_0000 * (i / 4)
  }

  lemma HalvesMeet(i: nat)
    ensures HugePage(i) == i * 0x4000_0000 + 0x83
  {
    MulDivMod(i * 0x4000_0000, 0x1_0000_0000, i / 4, (i % 4) * 0x4000_0000);
  }

  function Kernel64(): Memory {
    map[PML4_ADDR := Pml4(), PDPT_ADDR := Pdpt()]
  }

  ghost function Depth64(): map<nat, nat> {
    map[PML4_ADDR := 4, PDPT_ADDR := 3]
  }

  lemma HugeEntry(i: nat)
    ensures (var e := i * 0x4000_0000 + 0x83; Present(e) && Writeable(e) && Large(e) && !User(e))
  {
    MulDivMod(i * 0x4000_0000 + 0x83, 2, i * 0x2000_0000 + 0x41, 1);
    MulDivMod(i * 0x2000_0000 + 0x41, 2, i * 0x1000_0000 + 0x20, 1);
    MulDivMod(i * 0x4000_0000 + 0x83, 4, i * 0x1000_0000 + 0x20, 3);
    MulDivMod(i * 0x1000_0000 + 0x20, 2, i * 0x800_0000 + 0x10, 0);
    MulDivMod(i * 0x4000_0000 + 0x83, 128, i * 0x80_0000 + 1, 3);
    MulDivMod(i * 0x80_0000 + 1, 2, i * 0x40_0000, 1);
  }

  lemma Tables64()
    ensures Tables(Kernel64(), 512, Depth64())
  {
    forall p | p in Depth64()
      ensures Table(Kernel64(), 512, Depth64(), p)
    {
      if p == PML4_ADDR {
        EntryBits(0, PDPT_ADDR, 3);
        assert LeadsTo(Depth64(), BaseOf(PDPT_ADDR + 3), 3);
        assert !Present(0);
      } else {
        forall i | 0 <= i < 512
          ensures Large(Kernel64()[p][i])
        {
          HugeEntry(i);
        }
      }
    }
  }

  /** The kernel's first 512 GiB are mapped to themselves, by 1-GiB pages. */
  lemma Identity64(va: nat)
    requires va < 0x80_0000_0000
    ensures Identity(Kernel64(), PML4_ADDR, 4, 9, va, 2)
  {
    hide Pow2;
    Powers();
    var path := Path(4, 9, va);
    var g := va / 0x4000_0000;
    MulDivMod(va, 0x80_0000_0000, 0, va);
    MulDivMod(0, 512, 0, 0);
    assert path[0] == 0;
    DivModBound(va, 0x4000_0000);
    MulDivMod(g, 512, 0, g);
    assert path[1] == g;
    EntryBits(0, PDPT_ADDR, 3);
    HugeEntry(g);
    assert path[1..][1..] == path[2..];
    var page := Page(g * 0x4000_0000 + 0x83, 2, Rights(true, false));
    assert Lookup(Kernel64(), PDPT_ADDR, path[1..]) == Some(page);
    assert Lookup(Kernel64(), PML4_ADDR, path) == Some(page);
    assert MapsTo(Kernel64(), PML4_ADDR, 4, 9, va, 2, 0x83);
  }

  const WORD64: nat := D

  /** vme.c:26-27 */
  function Areas64(): seq<Area> {
    [Area(0x1000_0000_0000, 0x1080_0000_0000, false), Area(0, 0x80_0000_0000, true)]
  }

  lemma Slots64()
    ensures forall a | a in Areas64() :: Aligned(a, Pow2(Shift(4, 9, 1)), WORD64)
    ensures KernelSlots(4, 9, WORD64, Areas64()) == {0}
    ensures forall v | 0x1000_0000_0000 <= v < 0x1080_0000_0000 :: IndexOf(4, 9, v, 1) == 32
  {
    hide Pow2;
    Powers();
    var areas := Areas64();
    assert areas[..1] == [areas[0]] && areas[..1][..0] == [];
    assert KernelSlots(4, 9, WORD64, areas[..1][..0]) == {};
    assert KernelSlots(4, 9, WORD64, areas[..1]) == {};
    assert Along(areas[1], 0x80_0000_0000, WORD64, 0) == 0 && IndexOf(4, 9, 0, 1) == 0;
    assert Count(areas[1], 0x80_0000_0000, WORD64) == 1;
    assert AreaSlots(4, 9, WORD64, areas[1]) == {0};
  }

  /** protect in the 64-bit configuration: any user page may be mapped, kernel addresses stay mapped to themselves. */
  method Protect64(pages: seq<nat>) returns (a: AddrSpace)
    requires pages != [] && Pool(Kernel64(), pages)
    ensures fresh(a) && a.Valid() && a.c.entries == Pow2(9) && a.c.levels == 4 && a.pool == pages[1..]
    ensures forall v | 0x1000_0000_0000 <= v < 0x1080_0000_0000 ::
              IndexOf(4, 9, v, 1) !in a.c.kernelSlots && Lookup(a.mem, a.c.root, Path(4, 9, v)) == None
    ensures forall v: nat | v < 0x80_0000_0000 :: Identity(a.mem, a.c.root, 4, 9, v, 2)
  {
    hide Pow2, IndexOf, KernelSlots, Lookup;
    Powers();
    Tables64();
    Slots64();
    a := new AddrSpace.Protect(9, 4, WORD64, Areas64(), Kernel64(), Depth64(), PML4_ADDR, pages);
    forall v: nat | v < 0x80_0000_0000
      ensures Identity(a.mem, a.c.root, 4, 9, v, 2)
    {
      FirstIndex64(v);
      Identity64(v);
      SameIdentity(Kernel64(), PML4_ADDR, a.mem, a.c.root, 4, 9, v, 2);
    }
  }

  lemma FirstIndex64(v: nat)
    requires v < 0x80_0000_0000
    ensures Path(4, 9, v)[0] == 0
  {
    hide Pow2;
    Powers();
    MulDivMod(v, 0x80_0000_0000, 0, v);
  }

  // ---------------------------------------------------------------- 32 bits

  const WORD32: nat := W

  /** vme.c:29-31; the devices' area ends where addresses wrap around. */
  function Areas32(): seq<Area> {
    [Area(0x4000_0000, 0x8000_0000, false), Area(0, 0x4000_0000, true), Area(0xfd00_0000, 0, true)]
  }

  predicate KernelSlot(i: nat) {
    i < 256 || 1012 <= i < 1024
  }

  predicate KernelPage(d: nat) {
    d % PGSIZE == 0 && (d < 0x4000_0000 || 0xfd00_0000 <= d < WORD32)
  }

  function Pages32(): set<nat> {
    AreasAligned32();
    KernelPages(WORD32, Areas32())
  }

  lemma AreasAligned32()
    ensures forall a | a in Areas32() :: Aligned(a, PGSIZE, WORD32) && a.start % PGSIZE == 0
  {
  }

  lemma PagesAre32()
    ensures forall d: nat :: d in Pages32() <==> KernelPage(d)
  {
    hide AreaPages;
    AreasAligned32();
    var areas := Areas32();
    assert areas[..2] == [areas[0], areas[1]] && areas[..2][..1] == [areas[0]] && areas[..2][..1][..0] == [];
    assert KernelPages(WORD32, areas[..2][..1]) == {};
    assert KernelPages(WORD32, areas[..2]) == AreaPages(WORD32, areas[1]);
    assert KernelPages(WORD32, areas) == AreaPages(WORD32, areas[1]) + AreaPages(WORD32, areas[2]);
    AreaPages32(areas[1], 0x4000_0000);
    AreaPages32(areas[2], WORD32);
  }

  /** The pages of an area that ends at end, which may be where addresses wrap around. */
  lemma AreaPages32(a: Area, end: nat)
    requires a.start % PGSIZE == 0 && end % PGSIZE == 0 && a.start < end <= WORD32 && a.end == end % WORD32
    requires end - a.start < WORD32
    ensures Aligned(a, PGSIZE, WORD32)
    ensures forall d: nat :: d in AreaPages(WORD32, a) <==> d % PGSIZE == 0 && a.start <= d < end
  {
    assert (a.end - a.start) % WORD32 == end - a.start;
    forall d: nat
      ensures d in AreaPages(WORD32, a) <==> d % PGSIZE == 0 && a.start <= d < end
    {
      PageAlong(a, end, d);
    }
  }

  lemma PageAlong(a: Area, end: nat, d: nat)
    requires a.start % PGSIZE == 0 && end % PGSIZE == 0 && a.start < end <= WORD32 && end - a.start < WORD32
    requires Aligned(a, PGSIZE, WORD32) && (a.end - a.start) % WORD32 == end - a.start
    ensures d in AreaPages(WORD32, a) <==> d % PGSIZE == 0 && a.start <= d < end
  {
    var n := Count(a, PGSIZE, WORD32);
    assert end == a.start + n * PGSIZE;
    forall k: nat | k < n
      ensures Along(a, PGSIZE, WORD32, k) == a.start + k * PGSIZE < end && (a.start + k * PGSIZE) % PGSIZE == 0
    {
      MulDivMod(a.start + k * PGSIZE, PGSIZE, a.start / PGSIZE + k, 0);
      MulDivMod(a.start + k * PGSIZE, WORD32, 0, a.start + k * PGSIZE);
    }
    if d % PGSIZE == 0 && a.start <= d < end {
      var k := d / PGSIZE - a.start / PGSIZE;
      assert d == a.start + k * PGSIZE;
      assert Along(a, PGSIZE, WORD32, k) == d;
    }
  }

  lemma Path32(va: nat)
    requires va < WORD32
    ensures Path(2, 10, va) == [va / 0x40_0000, (va / 0x1000) % 1024]
    ensures va < 0x4000_0000 || 0xfd00_0000 <= va <==> KernelSlot(va / 0x40_0000)
  {
    hide Pow2;
    Powers();
    var i := va / 0x40_0000;
    DivModBound(va, 0x40_0000);
    MulDivMod(i, 1024, 0, i);
    var path := Path(2, 10, va);
    assert path[0] == i && path[1] == (va / 0x1000) % 1024;
  }

  function SlotAt(k: nat): nat {
    if k < 256 then k else k + 756
  }

  /** The root, 256 tables for the low area and 12 for the devices'. */
  lemma Tables32()
    ensures |TablePaths(2, 10, Pages32())| == 269
  {
    hide Path, Pages32, KernelPage;
    var s: seq<seq<nat>> := [[]] + seq(268, k requires 0 <= k < 268 => [SlotAt(k)]);
    assert Distinct(s) by {
      forall i, j | 0 <= i < j < |s|
        ensures s[i] != s[j]
      {
        if i > 0 {
          assert s[i][0] != s[j][0];
        }
      }
    }
    DistinctCardinality<seq<nat>>(s);
    forall x
      ensures x in TablePaths(2, 10, Pages32()) <==> x in s
    {
      NeededTable32(x, s);
    }
    assert TablePaths(2, 10, Pages32()) == set x | x in s;
  }

  lemma NeededTable32(x: seq<nat>, s: seq<seq<nat>>)
    requires |s| == 269 && s[0] == [] && forall k | 0 <= k < 268 :: s[k + 1] == [SlotAt(k)]
    ensures x in TablePaths(2, 10, Pages32()) <==> x in s
  {
    hide Path, Pages32;
    PagesAre32();
    if x in TablePaths(2, 10, Pages32()) && x != [] {
      var d, j :| d in Pages32() && 0 <= j < 2 && x == Path(2, 10, d)[..j];
      Path32(d);
      var i := d / 0x40_0000;
      assert x == [i] && KernelSlot(i);
      var k := if i < 256 then i else i - 756;
      assert s[k + 1] == [SlotAt(k)] == x;
    }
    if x in s && x != [] {
      var k :| 0 <= k < 269 && s[k] == x;
      assert s[k - 1 + 1] == [SlotAt(k - 1)];
      var d := SlotAt(k - 1) * 0x40_0000;
      SlotPage(SlotAt(k - 1));
      assert d in Pages32() && Path(2, 10, d)[..1] == x;
    }
  }

  lemma SlotPage(i: nat)
    requires KernelSlot(i)
    ensures KernelPage(i * 0x40_0000) && Path(2, 10, i * 0x40_0000) == [i, 0]
  {
    var d := i * 0x40_0000;
    MulDivMod(d, PGSIZE, i * 1024, 0);
    MulDivMod(d, 0x40_0000, i, 0);
    MulDivMod(i * 1024, 1024, i, 0);
    Path32(d);
  }

  /**
   * vme_init in the 32-bit configuration: 269 pages are enough, and no fewer; kernel addresses are mapped to
   * themselves.
   */
  method VmeInit32(pages: seq<nat>) returns (k: AddrSpace?)
    requires Pool(map[], pages)
    ensures k != null <==> |pages| >= 269
    ensures k != null ==>
              && fresh(k) && Ready32(k) && |k.pool| == |pages| - 269
              && k.Stock() == set p | p in pages
    ensures k != null ==> forall v: nat | v < WORD32 ::
              if v < 0x4000_0000 || 0xfd00_0000 <= v then Identity(k.mem, k.c.root, 2, 10, v, 0)
              else Lookup(k.mem, k.c.root, Path(2, 10, v)) == None
  {
    hide Pow2, TablePaths, Lookup, Path, Identity, IdentityAt, AddrSpace.Valid, AddrSpace.Stock;
    Powers();
    AreasAligned32();
    Tables32();
    Word32();
    PagesAre32();
    assert 0 in Pages32();
    k := VmeInit(10, 2, WORD32, Areas32(), pages);
    if k != null {
      forall v: nat | v < WORD32
        ensures if v < 0x4000_0000 || 0xfd00_0000 <= v then Identity(k.mem, k.c.root, 2, 10, v, 0)
                else Lookup(k.mem, k.c.root, Path(2, 10, v)) == None
      {
        assert IdentityAt(k.c, k.mem, 10, Pages32(), v);
        Identity32(k.c, k.mem, v);
      }
    }
  }

  lemma Word32()
    ensures Pow2(Shift(2, 10, 0)) == WORD32 && WORD32 % PGSIZE == 0
  {
    hide Pow2;
    Powers();
    Pow2Add(22, 10);
  }

  /** What vme_init leaves. */
  ghost predicate Ready32(k: AddrSpace)
    reads k
  {
    && k.Valid() && !k.c.user && k.c.kernelSlots == {} && k.c.levels == 2 && k.c.entries == Pow2(10)
    && IdentityOn(k.c, k.mem, 10, Pages32())
  }

  lemma Identity32(c: Config, mem: Memory, v: nat)
    requires c.levels == 2 && v < WORD32 && IdentityAt(c, mem, 10, Pages32(), v)
    ensures if v < 0x4000_0000 || 0xfd00_0000 <= v then Identity(mem, c.root, 2, 10, v, 0)
            else Lookup(mem, c.root, Path(2, 10, v)) == None
  {
    hide Pow2, Lookup, Path, Pages32;
    Powers();
    PagesAre32();
    FloorKernel(v);
    if v < 0x4000_0000 || 0xfd00_0000 <= v {
      EntryBits(0, 0, 3);
      assert MapsTo(mem, c.root, 2, 10, v, 0, 3);
    }
  }

  lemma FloorKernel(v: nat)
    requires v < WORD32
    ensures KernelPage(Floor(v)) <==> v < 0x4000_0000 || 0xfd00_0000 <= v
  {
    DivModBound(v, PGSIZE);
    MulDivMod(Floor(v), PGSIZE, v / PGSIZE, 0);
  }

  lemma Slots32()
    ensures forall a | a in Areas32() :: Aligned(a, Pow2(Shift(2, 10, 1)), WORD32)
    ensures forall i: nat :: i in KernelSlots(2, 10, WORD32, Areas32()) <==> KernelSlot(i)
    ensures forall v | 0x4000_0000 <= v < 0x8000_0000 :: !KernelSlot(IndexOf(2, 10, v, 1))
  {
    hide Pow2;
    Powers();
    var areas := Areas32();
    assert areas[..2] == [areas[0], areas[1]] && areas[..2][..1] == [areas[0]] && areas[..2][..1][..0] == [];
    assert KernelSlots(2, 10, WORD32, areas[..2][..1]) == {};
    assert KernelSlots(2, 10, WORD32, areas[..2]) == AreaSlots(2, 10, WORD32, areas[1]);
    assert KernelSlots(2, 10, WORD32, areas) == AreaSlots(2, 10, WORD32, areas[1]) + AreaSlots(2, 10, WORD32, areas[2]);
    LowSlots();
    HighSlots();
    forall v | 0x4000_0000 <= v < 0x8000_0000
      ensures !KernelSlot(IndexOf(2, 10, v, 1))
    {
      DivModBound(v, 0x40_0000);
      MulDivMod(v / 0x40_0000, 1024, 0, v / 0x40_0000);
    }
  }

  lemma LowSlots()
    ensures Aligned(Areas32()[1], Pow2(Shift(2, 10, 1)), WORD32)
    ensures forall i: nat :: i in AreaSlots(2, 10, WORD32, Areas32()[1]) <==> i < 256
  {
    hide Pow2;
    Powers();
    var a := Areas32()[1];
    assert Count(a, 0x40_0000, WORD32) == 256;
    forall k | 0 <= k < 256
      ensures IndexOf(2, 10, Along(a, 0x40_0000, WORD32, k), 1) == k
    {
      MulDivMod(k * 0x40_0000, 0x40_0000, k, 0);
      MulDivMod(k, 1024, 0, k);
    }
    forall i: nat | i < 256
      ensures i in AreaSlots(2, 10, WORD32, a)
    {
      assert IndexOf(2, 10, Along(a, 0x40_0000, WORD32, i), 1) == i;
    }
  }

  lemma HighSlots()
    ensures Aligned(Areas32()[2], Pow2(Shift(2, 10, 1)), WORD32)
    ensures forall i: nat :: i in AreaSlots(2, 10, WORD32, Areas32()[2]) <==> 1012 <= i < 1024
  {
    hide Pow2;
    Powers();
    var a := Areas32()[2];
    assert Count(a, 0x40_0000, WORD32) == 12;
    forall k | 0 <= k < 12
      ensures IndexOf(2, 10, Along(a, 0x40_0000, WORD32, k), 1) == 1012 + k
    {
      MulDivMod((1012 + k) * 0x40_0000, 0x40_0000, 1012 + k, 0);
      MulDivMod(1012 + k, 1024, 0, 1012 + k);
    }
    forall i: nat | 1012 <= i < 1024
      ensures i in AreaSlots(2, 10, WORD32, a)
    {
      assert IndexOf(2, 10, Along(a, 0x40_0000, WORD32, i - 1012), 1) == i;
    }
  }

  /** protect in the 32-bit configuration, over the tables vme_init has made and with the pages it has left. */
  method Protect32(k: AddrSpace) returns (a: AddrSpace)
    requires Ready32(k) && k.pool != []
    ensures fresh(a) && a.Valid() && a.c.entries == Pow2(10) && a.c.levels == 2 && a.pool == k.pool[1..]
    ensures a.Others() == k.mem
    ensures forall v | 0x4000_0000 <= v < 0x8000_0000 ::
              IndexOf(2, 10, v, 1) !in a.c.kernelSlots && Lookup(a.mem, a.c.root, Path(2, 10, v)) == None
    ensures forall v: nat | v < 0x4000_0000 || 0xfd00_0000 <= v < WORD32 :: Identity(a.mem, a.c.root, 2, 10, v, 0)
  {
    hide Pow2, IndexOf, KernelSlots, Lookup, MapsTo, IdentityOn, IdentityAt, Tables, UserTables, User;
    Powers();
    Slots32();
    Word32();
    RootEntries32(k);
    a := new AddrSpace.Protect(10, 2, WORD32, Areas32(), k.mem, k.depth, k.c.root, k.pool);
    forall v: nat | v < 0x4000_0000 || 0xfd00_0000 <= v < WORD32
      ensures Identity(a.mem, a.c.root, 2, 10, v, 0)
    {
      KernelPath32(k, v);
      SameIdentity(k.mem, k.c.root, a.mem, a.c.root, 2, 10, v, 0);
    }
  }

  lemma KernelPath32(k: AddrSpace, v: nat)
    requires Ready32(k) && (v < 0x4000_0000 || 0xfd00_0000 <= v < WORD32)
    ensures Identity(k.mem, k.c.root, 2, 10, v, 0) && |Path(2, 10, v)| == 2 && KernelSlot(Path(2, 10, v)[0])
  {
    hide Pow2, Lookup, Path, Identity, IdentityAt, AddrSpace.Valid;
    Word32();
    assert IdentityAt(k.c, k.mem, 10, Pages32(), v);
    Identity32(k.c, k.mem, v);
    Path32(v);
  }

  lemma RootEntries32(k: AddrSpace)
    requires Ready32(k)
    ensures k.c.root in k.depth && k.depth[k.c.root] == 2 && k.c.root in k.mem && |k.mem[k.c.root]| == Pow2(10)
    ensures forall i: nat | KernelSlot(i) :: i < Pow2(10) && !User(k.mem[k.c.root][i])
  {
    hide Pow2, User, Tables, UserTables, IdentityOn, Present;
    RootFacts(k.c, k.mem, k.depth, k.owner);
    OwnedFacts(k.c, k.mem, k.depth, k.owner, k.c.root);
    Powers();
    forall i: nat | KernelSlot(i)
      ensures !User(k.mem[k.c.root][i])
    {
      RootEntry32(k, i);
      UserStep(k.c, k.mem, k.depth, k.owner, k.c.root, i);
    }
  }

  /** The table for a kernel slot is there. */
  lemma RootEntry32(k: AddrSpace, i: nat)
    requires Ready32(k) && KernelSlot(i)
    ensures k.c.root in k.mem && i < |k.mem[k.c.root]| && Present(k.mem[k.c.root][i])
  {
    hide Pow2, Tables, UserTables, Path, MapsTo, Present, AddrSpace.Valid;
    SlotPage(i);
    KernelPath32(k, i * 0x40_0000);
    var flags :| MapsTo(k.mem, k.c.root, 2, 10, i * 0x40_0000, 0, flags);
    SomeMapped(k.mem, k.c.root, i * 0x40_0000, flags);
    assert Lookup(k.mem, k.c.root, [i, 0]).Some?;
  }

  lemma SomeMapped(mem: Memory, root: nat, va: nat, flags: nat)
    requires MapsTo(mem, root, 2, 10, va, 0, flags)
    ensures Lookup(mem, root, Path(2, 10, va)).Some?
  {
    hide Lookup, Path, Pow2;
  }
}
