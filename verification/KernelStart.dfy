/** From the boot ranges to a working kmalloc: init_memory (arch/x86/mem.c), then kmalloc_init
    (kmalloc.c), with the addresses of include/x86/mmap.h. */
module KernelStart {
  import opened Options
  import opened Arith
  import opened BuddyTheory
  import opened Banks
  import opened Buddies
  import opened PhysicalMemory
  import opened EarlyMemory
  import opened Boot
  import PT = PageTables
  import VM = Vmspaces
  import Slabs
  import Kmalloc
  import HeapRuns

  /** MMAP_KERNEL_VMSPACE_START, and the size of the space that ends where the zone bitmaps begin. */
  const SPACE_START: nat := 0xD000_0000
  const SPACE_SIZE: nat := 0x2E80_0000
  const SPACE_FIRST: nat := 0xD_0000

  lemma {:induction false} ShrLess(n: nat, k: nat)
    ensures Shr(n, k) <= n
    decreases k
  {
    if k > 0 { ShrLess(n / 2, k - 1); }
  }

  /** No order needs more bytes than the smallest. */
  lemma {:induction false} OverheadBound(size: nat, order: nat)
    ensures SliceStart(size, order) <= order * SliceBytes(size, 0)
  {
    if order > 0 {
      OverheadBound(size, order - 1);
      ShrShr(size, MIN_LOG2, order - 1);
      ShrLess(Shr(size, MIN_LOG2), order - 1);
      assert order * SliceBytes(size, 0) == (order - 1) * SliceBytes(size, 0) + SliceBytes(size, 0);
    }
  }

  /** The bookkeeping of the kernel's address space fits at its top, and in one block. */
  lemma {:induction false} BookkeepingFits()
    ensures VM.Reserve(SPACE_SIZE) <= 0x10_0000
    ensures Log2Roundup(VM.Reserve(SPACE_SIZE) / PAGE) <= MAX_ORDER
  {
    hide SliceStart, Log2Roundup, Pow2;
    OverheadBound(SPACE_SIZE, MAX_ORDER + 1);
    Shift12(SPACE_SIZE);
    var n := VM.Reserve(SPACE_SIZE) / PAGE;
    Pow2Constants();
    if Log2Roundup(n) > MAX_ORDER { Pow2Monotone(MAX_ORDER, Log2Roundup(n) - 1); }
  }

  /** The zone bitmaps of a machine of up to 4GB fit in the window reserved for them. */
  lemma {:induction false} BitmapsFit(maxExtent: nat)
    requires maxExtent <= GB4
    ensures BITMAP_FIRST + BitmapPages(maxExtent) <= KERNEL_END && BitmapPages(maxExtent) <= 546
  {
    hide SliceStart;
    OverheadBound(0, MAX_ORDER + 1);
    OverheadBound(MB1, MAX_ORDER + 1);
    OverheadMonotone(MidExtent(maxExtent), GB4, MAX_ORDER + 1);
    OverheadBound(GB4, MAX_ORDER + 1);
    Shift12(0);
    Shift12(MB1);
    Shift12(GB4);
  }

  /** The tables init_virtual_memory made cover the kernel's address space. */
  lemma {:induction false} SpaceTables(tables: PT.AddressSpace)
    requires tables.Shaped() && TablesBelow(tables, KERNEL_END)
    ensures PT.AllManaged(SPACE_FIRST, SPACE_SIZE / PAGE) && tables.AllTables(SPACE_FIRST, SPACE_SIZE / PAGE)
  {
    hide PT.Present, PT.AddressSpace.Pde;
    forall r: nat | SPACE_FIRST <= r < SPACE_FIRST + SPACE_SIZE / PAGE
      ensures PT.ManagedPage(r) && tables.HasTable(r)
    {
      var d := r / 1024;
      assert 768 < d < 1022 && d * 1024 < KERNEL_END;
    }
  }

  /** kmalloc_init: an address space over 0xD0000000 and the caches. */
  method InitHeap(pmm: Pmm, tables: PT.AddressSpace, ram: Slabs.Ram)
    returns (r: Option<Kmalloc.Heap>, ghost p: nat)
    requires pmm.Valid() && tables.Valid() && tables.TablesTaken(pmm.Stock()) && tables.words !in pmm.Repr()
    requires pmm.high.free == {} && TablesBelow(tables, KERNEL_END)
    requires Range(SPACE_FIRST, BITMAP_FIRST) !! tables.Mapping().Keys
    modifies tables.words, pmm.Repr()
    ensures r.Some? <==> !old(Dry(pmm.mid, Log2Roundup(VM.Reserve(SPACE_SIZE) / PAGE)))
    ensures r.Some? ==>
              && r.value.Valid() && r.value.blocks == map[] && r.value.ram == ram
              && r.value.vms.pmm == pmm && r.value.vms.tables == tables && pmm.Stock() <= old(pmm.Stock())
    ensures r.Some? ==>
              var n := VM.Reserve(SPACE_SIZE) / PAGE;
              && r.value.vms.allocator.start == 0xD000_0000
              && r.value.vms.allocator.size == 0x2E80_0000 - VM.Reserve(SPACE_SIZE)
              && VM.LiesIn(tables, old(pmm.Stock()), pmm.Stock(), 0xF_E800 - n, p, n)
    ensures r.Some? ==>
              var vms := r.value.vms;
              && fresh(r.value) && fresh(vms) && fresh(vms.allocator) && fresh(vms.allocator.bank)
              && fresh(vms.allocator.bank.storage)
    ensures r.Some? ==> forall k :: 0 <= k < |r.value.caches| ==> fresh(r.value.caches[k])
  {
    hide Pmm.Valid, PT.AddressSpace.Valid, PT.AddressSpace.Mapping, Dry, VM.Reserve,
      Log2Roundup, Range, VM.Vmspace.Valid, SliceStart, Boot.TablesBelow,
      PT.AddressSpace.TablesTaken, Kmalloc.Heap.Valid, Buddy.Valid, VM.Vmspace.Repr, Pmm.Repr;
    BookkeepingFits();
    assert tables.Shaped() by { ShapedTables(tables); }
    SpaceTables(tables);
    var space;
    space, p := VM.InitSpace(SPACE_START, SPACE_SIZE, pmm, tables);
    if space.None? {
      return None, p;
    }
    RamApart(space.value, ram);
    var heap := new Kmalloc.Heap(space.value, ram);
    r := Some(heap);
  }

  lemma {:induction false} RamApart(vms: VM.Vmspace, ram: Slabs.Ram)
    ensures ram !in vms.Repr()
  {
  }

  lemma {:induction false} ShapedTables(tables: PT.AddressSpace)
    requires tables.Valid()
    ensures tables.Shaped()
  {
  }

  /** The zone between 1MB and 4GB has a wholly free block of an order, told from the free pages. */
  ghost predicate HasBlock(stock: set<nat>, order: nat) {
    exists b: Block :: b.order == order && Shifted(Pages(b), MB1 / PAGE) <= stock
  }

  lemma {:induction false} MidBlock(pmm: Pmm, order: nat)
    requires pmm.Valid() && pmm.high.free == {}
    ensures HasBlock(pmm.Stock(), order) <==> !Dry(pmm.mid, order)
  {
    hide Pmm.Valid, Pmm.Stock, Pages, Shifted, Whole;
    forall b: Block | b.order == order
      ensures Whole(pmm.mid.free, b) <==> Shifted(Pages(b), MB1 / PAGE) <= pmm.Stock()
    {
      WholeInZone(pmm, b);
    }
  }

  lemma {:induction false} ShiftedSubset(a: set<nat>, b: set<nat>, base: nat)
    ensures Shifted(a, base) <= Shifted(b, base) <==> a <= b
  {
    if Shifted(a, base) <= Shifted(b, base) {
      forall p | p in a
        ensures p in b
      {
        assert base + p in Shifted(a, base);
      }
    }
  }

  /** From 1MB up, the free pages are those of the zone under 4GB. */
  lemma {:induction false} MidStock(pmm: Pmm)
    requires pmm.Valid() && pmm.high.free == {}
    ensures pmm.mid.start == MB1 && forall x: nat :: x >= MB1 / PAGE ==> (x in pmm.Stock() <==> x in ZoneFree(pmm.mid))
  {
  }

  lemma {:induction false} WholeInZone(pmm: Pmm, b: Block)
    requires pmm.Valid() && pmm.high.free == {}
    ensures Whole(pmm.mid.free, b) <==> Shifted(Pages(b), MB1 / PAGE) <= pmm.Stock()
  {
    hide Pmm.Valid, Pmm.Stock;
    ShiftedSubset(Pages(b), pmm.mid.free, MB1 / PAGE);
    MidStock(pmm);
    assert Whole(pmm.mid.free, b) <==> Pages(b) <= pmm.mid.free;
  }

  /** The order of the block the kernel's address space needs for its bookkeeping. */
  function BookkeepingOrder(): nat { Log2Roundup(VM.Reserve(SPACE_SIZE) / PAGE) }

  /** One range of 8MB, above 1MB and below 4GB, is enough to start on, whatever the other ranges are and however
      many tables there are already. */
  lemma {:induction false} EightMegabytesStart(rs: seq<MemRange>, i: nat, maxExtent: nat, tables: PT.AddressSpace)
    requires tables.Shaped() && maxExtent <= 0x1_0000_0000
    requires i < |rs| && rs[i].start % 0x1000 == 0 && 0x10_0000 <= rs[i].start && rs[i].extent >= 0x80_0000
    requires rs[i].start + rs[i].extent <= 0x1_0000_0000
    ensures var calls := EarlyCalls(tables, maxExtent);
            AllGivable(rs) >= calls && HasBlock(EarlyMemory.PagesOf(TakeMany(rs, calls)), BookkeepingOrder())
  {
    hide AllGivable, Givable, TakeMany, HasBlock, PT.AddressSpace.Pde, PT.Present, BitmapPages, Absent,
      EarlyMemory.PagesOf, BookkeepingOrder;
    var calls := EarlyCalls(tables, maxExtent);
    BitmapsFit(maxExtent);
    FewAbsent(tables);
    GivableIff(rs[i], 799);
    AllGivableAtLeast(rs, i);
    var lost := TakeManyAt(rs, calls, i);
    SmallOrder();
    var r := TakeMany(rs, calls)[i];
    BlockInRange(r, BookkeepingOrder());
    HasBlockMore(WholePages(r), EarlyMemory.PagesOf(TakeMany(rs, calls)), BookkeepingOrder());
  }

  lemma {:induction false} FewAbsent(tables: PT.AddressSpace)
    requires tables.Shaped()
    ensures |Absent(tables)| <= 254
  {
    hide PT.Present, PT.AddressSpace.Pde;
    CountRange(768, 254);
    SubsetCount(Absent(tables), Range(768, 1022));
  }

  lemma {:induction false} CountRange(a: nat, n: nat)
    ensures |Range(a, a + n)| == n
  {
    hide Range;
    if n == 0 {
      assert Range(a, a) == {};
    } else {
      CountRange(a, n - 1);
      var s := Range(a, a + (n - 1));
      assert Range(a, a + n) == s + {a + (n - 1)} && a + (n - 1) !in s;
    }
  }

  lemma {:induction false} SubsetCount(a: set<nat>, b: set<nat>)
    requires a <= b
    ensures |a| <= |b|
  {
    if x :| x in a { SubsetCount(a - {x}, b - {x}); }
  }

  lemma {:induction false} SmallOrder()
    ensures BookkeepingOrder() <= 8
  {
    hide Log2Roundup, VM.Reserve;
    BookkeepingFits();
    assert Pow2(8) == 256;
    var n := VM.Reserve(SPACE_SIZE) / PAGE;
    if Log2Roundup(n) > 8 { Pow2Monotone(8, Log2Roundup(n) - 1); }
  }

  /** Two megabytes and more hold a block of up to one. */
  lemma {:induction false} BlockInRange(r: MemRange, order: nat)
    requires r.start % PAGE == 0 && r.start >= MB1 && r.extent >= 0x20_0000 && order <= 8
    ensures HasBlock(WholePages(r), order)
  {
    hide Shl, Pow2;
    var a := r.start / PAGE - MB1 / PAGE;
    var b := NextBlock(a, order);
    BlockSize(b);
    assert Pow2(8) == 256 by { Pow2Eight(); }
    Pow2Monotone(order, 8);
    assert Shifted(Pages(b), MB1 / PAGE) <= WholePages(r);
  }

  lemma {:induction false} Pow2Eight()
    ensures Pow2(8) == 256
  {
  }

  /** The first block of an order that begins behind a page. */
  lemma {:induction false} NextBlock(a: nat, order: nat) returns (b: Block)
    ensures b.order == order && a < Lo(b) <= a + Pow2(order)
  {
    hide Shl, Pow2;
    var s := Pow2(order);
    b := Block(order, a / s + 1);
    ShlIsProduct(b.index, order);
    assert a == s * (a / s) + a % s;
    assert b.index * s == s * (a / s) + s;
  }

  lemma {:induction false} HasBlockMore(some: set<nat>, more: set<nat>, order: nat)
    requires some <= more && HasBlock(some, order)
    ensures HasBlock(more, order)
  {
    hide Shifted, Pages;
  }

  /** Start-up of memory as a whole, up to 4GB.  It stops exactly when the boot ranges cannot give the early
      pages, or what is then left has no block for the bookkeeping of the address space.  Otherwise kmalloc is
      ready, no block is live, and every free physical page was given at boot and is not in use since. */
  method StartKernel(rs: seq<MemRange>, maxExtent: nat, tables: PT.AddressSpace, ram: Slabs.Ram)
    returns (r: Option<Kmalloc.Heap>, ghost used: set<nat>)
    requires |rs| < 64 && Sound(rs, maxExtent) && MB1 <= maxExtent <= GB4
    requires BootTables(tables, EarlyMemory.PagesOf(rs))
    requires PT.Present(tables.Pde(PT.SELF)) ==> PT.Frame(tables.Pde(PT.SELF)) == tables.dir
    requires Range(SPACE_FIRST, KERNEL_END) !! tables.Mapping().Keys
    modifies tables.words
    ensures r.Some? <==>
              var calls := old(EarlyCalls(tables, maxExtent));
              AllGivable(rs) >= calls && HasBlock(EarlyMemory.PagesOf(TakeMany(rs, calls)), BookkeepingOrder())
    ensures r.Some? ==>
              && r.value.Valid() && r.value.blocks == map[]
              && r.value.vms.pmm.Stock() !! used && r.value.vms.pmm.Stock() <= EarlyMemory.PagesOf(rs)
    ensures r.Some? ==>
              var vms := r.value.vms;
              && fresh(r.value) && fresh(vms) && fresh(vms.allocator) && fresh(vms.allocator.bank)
              && fresh(vms.allocator.bank.storage) && fresh(vms.pmm.Repr())
              && vms.tables == tables && r.value.ram == ram
    ensures r.Some? ==> forall k :: 0 <= k < |r.value.caches| ==> fresh(r.value.caches[k])
  {
    hide Pmm.Valid, PT.AddressSpace.Valid, PT.AddressSpace.Mapping, Dry, VM.Reserve, Log2Roundup, Sound,
      EarlyMemory.PagesOf, BitmapPages, PT.AddressSpace.Pde, TakeMany, AllGivable, EarlyCalls, HasBlock,
      Boot.TablesBelow, PT.AddressSpace.TablesTaken, Kmalloc.Heap.Valid, Pmm.Stock, VM.Vmspace.Repr, Pmm.Repr;
    BitmapsFit(maxExtent);
    RangeJoin(SPACE_FIRST, BITMAP_FIRST, KERNEL_END);
    RangeJoin(BITMAP_FIRST, BITMAP_FIRST + BitmapPages(maxExtent), KERNEL_END);
    var pmm;
    pmm, used := StartMemory(rs, maxExtent, tables);
    if pmm.None? {
      return None, used;
    }
    MidBlock(pmm.value, BookkeepingOrder());
    ghost var p;
    r, p := InitHeap(pmm.value, tables, ram);
  }

  /** Start-up, then any run of a client.  Start-up stops exactly as StartKernel does, the run only at a block that
      cannot be had; otherwise the client's blocks are what it was given, all different, and hold what it last
      wrote into them. */
  method StartAndServe(rs: seq<MemRange>, maxExtent: nat, tables: PT.AddressSpace, ram: Slabs.Ram,
                       requests: seq<HeapRuns.Request>)
    returns (r: Option<Kmalloc.Heap>, served: nat, held: seq<HeapRuns.Loan>, ghost answers: seq<nat>)
    requires |rs| < 64 && Sound(rs, maxExtent) && MB1 <= maxExtent <= GB4
    requires BootTables(tables, EarlyMemory.PagesOf(rs))
    requires PT.Present(tables.Pde(PT.SELF)) ==> PT.Frame(tables.Pde(PT.SELF)) == tables.dir
    requires Range(SPACE_FIRST, KERNEL_END) !! tables.Mapping().Keys
    modifies tables.words, ram
    ensures served <= |requests| && |answers| == served && held == HeapRuns.Knows(requests[..served], answers).held
    ensures r.Some? <==>
              var calls := old(EarlyCalls(tables, maxExtent));
              AllGivable(rs) >= calls && HasBlock(EarlyMemory.PagesOf(TakeMany(rs, calls)), BookkeepingOrder())
    ensures r.None? ==> served == 0
    ensures r.Some? && served < |requests| ==>
              |r.value.caches| == 7 && HeapRuns.Refused(r.value, requests[served])
    ensures r.Some? && served == |requests| ==>
              && r.value.Valid() && HeapRuns.Lent(held, r.value.blocks, {})
              && HeapRuns.NotesHold(r.value.ram.bytes, HeapRuns.Knows(requests, answers))
  {
    hide Kmalloc.Heap.Valid, HeapRuns.Lent, HeapRuns.NotesHold, BootTables, Sound, EarlyMemory.PagesOf, HasBlock,
      AllGivable, TakeMany, EarlyCalls, Pmm.Stock, Range, PT.AddressSpace.Mapping, PT.AddressSpace.Pde;
    served, held, answers := 0, [], [];
    ghost var used;
    r, used := StartKernel(rs, maxExtent, tables, ram);
    if r.Some? {
      served, held, answers := HeapRuns.Serve(r.value, requests, {});
    }
  }
}
