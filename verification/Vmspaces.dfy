/** Virtual address spaces backed by physical pages (vmspace.c): a buddy allocator of addresses, the
    physical allocator and the page tables, kept consistent. */
module Vmspaces {
  import opened Options
  import opened Arith
  import opened BuddyTheory
  import opened Banks
  import opened Buddies
  import opened PhysicalMemory
  import opened PageTables
  import Bitmaps

  /** What the three layers say together, in absolute page numbers. */
  datatype MemState = MemState(
    vfree: set<nat>,             // free virtual pages
    stock: set<nat>,             // free physical pages
    mapping: map<nat, Target>,   // page tables
    backed: set<nat>)            // virtual pages whose frame belongs to the space

  /** Backed pages are mapped to distinct frames, none of them free; free addresses are not mapped. */
  ghost predicate Isolated(s: MemState) {
    && s.vfree !! s.mapping.Keys
    && s.backed <= s.mapping.Keys
    && (forall q :: q in s.backed ==> s.mapping[q].frame !in s.stock)
    && (forall q, r :: q in s.backed && r in s.backed && q != r ==> s.mapping[q].frame != s.mapping[r].frame)
  }

  /** vmspace_alloc with physical backing: n pages at page q backed by the block at p. */
  ghost function AllocStep(s: MemState, q: nat, p: nat, n: nat, flags: nat): MemState
    requires n > 0
  {
    MemState(s.vfree - Span(q, n), s.stock - Span(p, n),
             s.mapping + RangeMap(q, p * PAGE, n, flags), s.backed + Range(q, q + n))
  }

  /** The pages of a rounded block of n pages. */
  ghost function Span(q: nat, n: nat): set<nat>
    requires n > 0
  {
    Range(q, q + Pow2(Log2Roundup(n)))
  }

  /** The frames behind some pages. */
  ghost function Frames(m: map<nat, Target>, pages: set<nat>): (f: set<nat>)
    requires pages <= m.Keys
    ensures forall x :: x in f <==> exists r :: r in pages && m[r].frame == x
  {
    set r | r in pages :: m[r].frame
  }

  /** vmspace_free with physical pages: frames back to the stock, pages unmapped, addresses free. */
  ghost function FreeStep(s: MemState, q: nat, n: nat): MemState
    requires n > 0 && Range(q, q + n) <= s.mapping.Keys
  {
    MemState(s.vfree + Span(q, n), s.stock + Frames(s.mapping, Range(q, q + n)),
             s.mapping - Range(q, q + n), s.backed - Range(q, q + n))
  }

  /** When a backed allocation can happen. */
  ghost predicate CanAlloc(s: MemState, q: nat, p: nat, n: nat) {
    n > 0 && Span(q, n) <= s.vfree && Span(p, n) <= s.stock && p + n <= FRAMES
  }

  /** When a backed block may be given back. */
  ghost predicate CanGive(s: MemState, q: nat, n: nat) {
    && n > 0 && Range(q, q + n) <= s.backed
    && Span(q, n) !! s.vfree && Span(q, n) * s.mapping.Keys == Range(q, q + n)
  }

  lemma {:induction false} SpanHolds(q: nat, n: nat)
    requires n > 0
    ensures Range(q, q + n) <= Span(q, n)
    ensures Span(q, n) == Range(q, q + n) <==> Pow2(Log2Roundup(n)) == n
  {
    if Pow2(Log2Roundup(n)) > n {
      assert q + n in Span(q, n) && q + n !in Range(q, q + n);
    }
  }

  lemma {:induction false} FreshPages(s: MemState, q: nat, n: nat)
    requires Isolated(s) && n > 0 && Span(q, n) <= s.vfree
    ensures Range(q, q + n) !! s.mapping.Keys && Range(q, q + n) !! s.backed && s.backed <= s.mapping.Keys
  {
    SpanHolds(q, n);
  }

  /** A page mapped by a range of frames below 4GB gets the frame at the same distance. */
  lemma {:induction false} RangeMapFrames(q: nat, p: nat, n: nat, flags: nat)
    requires p + n <= FRAMES
    ensures forall r :: r in Range(q, q + n) ==> RangeMap(q, p * PAGE, n, flags)[r].frame == p + (r - q)
  {
    forall r | r in Range(q, q + n)
      ensures RangeMap(q, p * PAGE, n, flags)[r].frame == p + (r - q)
    {
      var a := p + (r - q);
      assert p * PAGE + (r - q) * 4096 == a * 4096 && a < FRAMES;
      assert a * 4096 % 0x1_0000_0000 == a * 4096;
    }
  }

  lemma {:induction false} AllocIsolated(s: MemState, q: nat, p: nat, n: nat, flags: nat)
    requires Isolated(s) && CanAlloc(s, q, p, n)
    ensures Isolated(AllocStep(s, q, p, n, flags))
  {
    hide RangeMap, Pow2, Log2Roundup, Range, TargetOf;
    RangeMapFrames(q, p, n, flags);
    SpanHolds(q, n);
    SpanHolds(p, n);
    var t := AllocStep(s, q, p, n, flags);
    forall r | r in t.backed
      ensures if r in Range(q, q + n) then t.mapping[r].frame == p + (r - q) && p + (r - q) in Span(p, n)
              else t.mapping[r] == s.mapping[r]
    {
    }
  }

  lemma {:induction false} GiveIsolated(s: MemState, q: nat, n: nat)
    requires Isolated(s) && CanGive(s, q, n)
    ensures Isolated(FreeStep(s, q, n))
  {
    var t := FreeStep(s, q, n);
    forall r | r in t.backed
      ensures t.mapping[r] == s.mapping[r] && t.mapping[r].frame !in t.stock
    {
    }
  }

  /** Giving back what was just allocated restores addresses and page tables always, and the physical
      stock exactly when the page count is a power of two: otherwise the rounded-up tail is lost. */
  lemma {:induction false} AllocFreeRoundTrip(s: MemState, q: nat, p: nat, n: nat, flags: nat)
    requires Isolated(s) && CanAlloc(s, q, p, n)
    ensures CanGive(AllocStep(s, q, p, n, flags), q, n)
    ensures var t := FreeStep(AllocStep(s, q, p, n, flags), q, n);
            && t.vfree == s.vfree && t.mapping == s.mapping && t.backed == s.backed
            && t.stock == s.stock - Range(p + n, p + Pow2(Log2Roundup(n)))
            && (t.stock == s.stock <==> Pow2(Log2Roundup(n)) == n)
  {
    hide RangeMap, Range, Log2Roundup, Pow2;
    SpanHolds(q, n);
    FramesOfRange(s.mapping, q, p, n, flags);
    MappingRoundTrip(s.mapping, q, p * PAGE, n, flags);
    StockRoundTrip(s.stock, p, n);
  }

  /** The smallest failing case: of three pages the fourth, taken with them, is lost. */
  lemma {:induction false} ThreePagesLoseOne(s: MemState, q: nat, p: nat, flags: nat)
    requires Isolated(s) && CanAlloc(s, q, p, 3)
    ensures CanGive(AllocStep(s, q, p, 3, flags), q, 3)
    ensures p + 3 in s.stock && FreeStep(AllocStep(s, q, p, 3, flags), q, 3).stock == s.stock - {p + 3}
  {
    hide Isolated, CanGive, AllocStep, FreeStep;
    assert Pow2(2) == 4 && Pow2(1) == 2;
    Log2RoundupUnique(3, 2);
    AllocFreeRoundTrip(s, q, p, 3, flags);
    RangeOne(p + 3);
    assert p + 3 in Span(p, 3);
  }

  lemma {:induction false} MappingRoundTrip(m: map<nat, Target>, q: nat, p: nat, n: nat, flags: nat)
    requires Range(q, q + n) !! m.Keys
    ensures m + RangeMap(q, p, n, flags) - Range(q, q + n) == m
  {
    hide TargetOf;
  }

  lemma {:induction false} StockRoundTrip(stock: set<nat>, p: nat, n: nat)
    requires n > 0 && Span(p, n) <= stock
    ensures stock - Span(p, n) + Range(p, p + n) == stock - Range(p + n, p + Pow2(Log2Roundup(n)))
    ensures stock - Span(p, n) + Range(p, p + n) == stock <==> Pow2(Log2Roundup(n)) == n
  {
    RangeJoin(p, p + n, p + Pow2(Log2Roundup(n)));
    if Pow2(Log2Roundup(n)) != n {
      assert p + n in Span(p, n) && p + n !in Range(p, p + n);
    }
  }

  lemma {:induction false} FramesOfRange(m: map<nat, Target>, q: nat, p: nat, n: nat, flags: nat)
    requires p + n <= FRAMES
    ensures Frames(m + RangeMap(q, p * PAGE, n, flags), Range(q, q + n)) == Range(p, p + n)
  {
    RangeMapFrames(q, p, n, flags);
    var t := m + RangeMap(q, p * PAGE, n, flags);
    var pages, frames := Range(q, q + n), Range(p, p + n);
    forall x | x in frames
      ensures x in Frames(t, pages)
    {
      var r := q + (x - p);
      assert r in pages && t[r].frame == x;
    }
  }

  /** Backed pages that the kernel may write and that are not open to user code: with flag 1 and without flag 4. */
  ghost function WritablePages(m: map<nat, Target>, backed: set<nat>): (w: set<nat>)
    ensures forall q :: q in w <==> q in backed && q in m && KernelWritable(m[q])
  {
    set q | q in backed && q in m && KernelWritable(m[q])
  }

  predicate KernelWritable(t: Target) { t.flags % 2 == 1 && t.flags / 4 % 2 == 0 }

  /** An allocation adds its pages exactly when it asks for PAGE_WRITE, not for PAGE_USER, and not for PAGE_COW. */
  lemma {:induction false} AllocWritable(s: MemState, q: nat, p: nat, n: nat, flags: nat)
    requires Isolated(s) && CanAlloc(s, q, p, n)
    ensures var t := AllocStep(s, q, p, n, flags);
            WritablePages(t.mapping, t.backed) ==
              WritablePages(s.mapping, s.backed) +
              if flags % 2 == 1 && flags / 4 % 2 == 0 && flags / 8 % 2 == 0 then Range(q, q + n) else {}
  {
    hide RangeMap, Range, TargetOf, Span;
    FreshPages(s, q, n);
    var t := AllocStep(s, q, p, n, flags);
    forall r | r in Range(q, q + n)
      ensures KernelWritable(t.mapping[r]) <==> flags % 2 == 1 && flags / 4 % 2 == 0 && flags / 8 % 2 == 0
    {
      TargetBits(p * PAGE + (r - q) * 4096, flags);
    }
    forall r | r !in Range(q, q + n)
      ensures r in WritablePages(t.mapping, t.backed) <==> r in WritablePages(s.mapping, s.backed)
    {
    }
  }

  lemma {:induction false} GiveWritable(s: MemState, q: nat, n: nat)
    requires Isolated(s) && CanGive(s, q, n)
    ensures var t := FreeStep(s, q, n);
            WritablePages(t.mapping, t.backed) == WritablePages(s.mapping, s.backed) - Range(q, q + n)
  {
    hide Range, Span, KernelWritable;
  }

  // ---------- whole runs ----------

  /** One call: with physical backing, or addresses only. */
  datatype Call =
    | AllocBacked(q: nat, p: nat, n: nat, flags: nat)
    | GiveBacked(q: nat, n: nat)
    | AllocBare(q: nat, n: nat)
    | GiveBare(q: nat, n: nat)

  ghost predicate Legal(s: MemState, c: Call) {
    match c
    case AllocBacked(q, p, n, flags) => CanAlloc(s, q, p, n)
    case GiveBacked(q, n) => CanGive(s, q, n)
    case AllocBare(q, n) => n > 0 && Span(q, n) <= s.vfree
    case GiveBare(q, n) => n > 0 && Span(q, n) !! s.vfree && Span(q, n) !! s.mapping.Keys
  }

  ghost function Apply(s: MemState, c: Call): MemState
    requires Legal(s, c) && s.backed <= s.mapping.Keys
  {
    match c
    case AllocBacked(q, p, n, flags) => AllocStep(s, q, p, n, flags)
    case GiveBacked(q, n) => FreeStep(s, q, n)
    case AllocBare(q, n) => s.(vfree := s.vfree - Span(q, n))
    case GiveBare(q, n) => s.(vfree := s.vfree + Span(q, n))
  }

  /** s leads to t by legal calls. */
  ghost predicate Leads(s: MemState, calls: seq<Call>, t: MemState)
    decreases |calls|
  {
    if calls == [] then s == t else
      s.backed <= s.mapping.Keys && Legal(s, calls[0]) && Leads(Apply(s, calls[0]), calls[1..], t)
  }

  /** The physical pages that are free or in use behind the space. */
  ghost function Wealth(s: MemState): set<nat>
    requires s.backed <= s.mapping.Keys
  {
    s.stock + Frames(s.mapping, s.backed)
  }

  /** The pages a call rounds up to but never gives back. */
  ghost function Leak(c: Call): set<nat> {
    if c.AllocBacked? && c.n > 0 then Range(c.p + c.n, c.p + Pow2(Log2Roundup(c.n))) else {}
  }

  lemma {:induction false} StepIsolated(s: MemState, c: Call)
    requires Isolated(s) && Legal(s, c)
    ensures Isolated(Apply(s, c))
  {
    hide Span, RangeMap, Range;
    match c
    case AllocBacked(q, p, n, flags) => AllocIsolated(s, q, p, n, flags);
    case GiveBacked(q, n) => GiveIsolated(s, q, n);
    case AllocBare(q, n) =>
    case GiveBare(q, n) =>
  }

  /** No call makes up a physical page, and only the rounding of an allocation loses any. */
  lemma {:induction false} StepWealth(s: MemState, c: Call)
    requires Isolated(s) && Legal(s, c)
    ensures Isolated(Apply(s, c)) && Wealth(Apply(s, c)) == Wealth(s) - Leak(c)
  {
    hide Span, RangeMap, Range, Isolated, Frames;
    StepIsolated(s, c);
    match c
    case AllocBacked(q, p, n, flags) => AllocWealth(s, q, p, n, flags);
    case GiveBacked(q, n) => GiveWealth(s, q, n);
    case AllocBare(q, n) =>
    case GiveBare(q, n) =>
  }

  lemma {:induction false} FramesAgree(m: map<nat, Target>, m': map<nat, Target>, pages: set<nat>)
    requires pages <= m.Keys && pages <= m'.Keys && forall r :: r in pages ==> m[r] == m'[r]
    ensures Frames(m, pages) == Frames(m', pages)
  {
  }

  lemma {:induction false} FramesUnion(m: map<nat, Target>, a: set<nat>, b: set<nat>)
    requires a <= m.Keys && b <= m.Keys
    ensures Frames(m, a + b) == Frames(m, a) + Frames(m, b)
  {
  }

  lemma {:induction false} AllocWealth(s: MemState, q: nat, p: nat, n: nat, flags: nat)
    requires Isolated(s) && CanAlloc(s, q, p, n) && Isolated(AllocStep(s, q, p, n, flags))
    ensures Wealth(AllocStep(s, q, p, n, flags)) == Wealth(s) - Range(p + n, p + Pow2(Log2Roundup(n)))
  {
    hide RangeMap, Pow2, Log2Roundup, Range, TargetOf, Frames;
    var t := AllocStep(s, q, p, n, flags);
    SpanHolds(q, n);
    FramesAgree(s.mapping, t.mapping, s.backed);
    FramesOfRange(s.mapping, q, p, n, flags);
    FramesUnion(t.mapping, s.backed, Range(q, q + n));
    RangeJoin(p, p + n, p + Pow2(Log2Roundup(n)));
    assert Frames(s.mapping, s.backed) !! s.stock;
  }

  lemma {:induction false} GiveWealth(s: MemState, q: nat, n: nat)
    requires Isolated(s) && CanGive(s, q, n) && Isolated(FreeStep(s, q, n))
    ensures Wealth(FreeStep(s, q, n)) == Wealth(s)
  {
    var t := FreeStep(s, q, n);
    FramesAgree(s.mapping, t.mapping, t.backed);
    FramesUnion(s.mapping, t.backed, Range(q, q + n));
    assert s.backed == t.backed + Range(q, q + n);
  }

  /** Over every run: backed pages stay on distinct frames outside the free stock, and when every
      backed allocation is a power of two of pages the physical pages are exactly conserved. */
  lemma {:induction false} RunsIsolated(s: MemState, calls: seq<Call>, t: MemState)
    requires Isolated(s) && Leads(s, calls, t)
    ensures Isolated(t) && Wealth(t) <= Wealth(s)
    ensures (forall i :: 0 <= i < |calls| ==> Leak(calls[i]) == {}) ==> Wealth(t) == Wealth(s)
    decreases |calls|
  {
    if calls != [] {
      StepWealth(s, calls[0]);
      RunsIsolated(Apply(s, calls[0]), calls[1..], t);
    }
  }

  // ---------- the code ----------

  lemma {:induction false} NothingDry(z: Buddy, order: nat)
    requires z.free == {}
    ensures Dry(z, order)
  {
    forall b: Block | b.order == order
      ensures !Whole(z.free, b)
    {
      BlockSize(b);
      assert Lo(b) !in z.free;
    }
  }

  /** The buddy_init part of vmspace_init: every page of the range is free. */
  method NewAddresses(r: MemRange, overhead: nat) returns (z: Buddy)
    requires r.start % PAGE == 0 && r.start + r.extent < NO_BLOCK && SliceStart(r.extent, MAX_ORDER + 1) <= overhead
    ensures z.Valid() && z.start == r.start && z.size == r.extent
    ensures fresh(z) && fresh(z.bank) && fresh(z.bank.storage)
    ensures ZoneFree(z) == Range(r.start / PAGE, r.start / PAGE + r.extent / PAGE)
  {
    hide Canonical, BitBank.Valid, Range, SliceStart;
    var storage := new Bitmaps.byte[overhead];
    z := new Buddy(storage, r, false);
    ghost var pieces := z.FreeRange(r, 0, r.extent / PAGE);
    ShiftedRange(0, r.extent / PAGE, r.start / PAGE);
    assert r.extent < PAGE ==> Range(0, r.extent / PAGE) == {};
  }

  /** The n pages from page q on lie, in order, in the block at address p, which is taken out of the stock; they can
      be written, by the kernel only, and none of their frames holds a table. */
  ghost predicate LiesIn(tables: AddressSpace, before: set<nat>, after: set<nat>, q: nat, p: nat, n: nat)
    requires tables.Shaped() && n > 0
    reads tables.words
  {
    && p % PAGE == 0 && p + n * PAGE <= 0x1_0000_0000
    && BlockPages(p, n) <= before && after == before - BlockPages(p, n) && tables.TablesTaken(BlockPages(p, n))
    && OnFrames(tables, q, p, n)
  }

  /** Pages from q on lead, one after another, to the frames from address p on, and can be written, by the kernel. */
  ghost predicate OnFrames(tables: AddressSpace, q: nat, p: nat, n: nat)
    requires tables.Shaped()
    reads tables.words
  {
    && (forall r: nat :: q <= r < q + n ==> r in tables.Mapping() && tables.Mapping()[r].frame == p / PAGE + (r - q))
    && (forall x: word :: q <= x / 4096 < q + n ==>
          && tables.Walk(x, true) == Some((p / PAGE + (x / 4096 - q)) * 1024 + x % 4096 / 4)
          && tables.Pte(x / 4096) / 4 % 2 == 0)
  }

  /** The mapping part of vmspace_init: physical pages for the bookkeeping, if there are any. */
  method MapBookkeeping(pmm: Pmm, tables: AddressSpace, start: nat, overhead: nat)
    returns (ok: bool, ghost p: nat)
    requires pmm.Valid() && tables.Valid() && tables.TablesTaken(pmm.Stock())
    requires tables.words !in pmm.Repr() && pmm.high.free == {}
    requires start % PAGE == 0 && overhead % PAGE == 0 && overhead > 0 && start + overhead <= 0x1_0000_0000
    requires AllManaged(start / PAGE, overhead / PAGE) && tables.AllTables(start / PAGE, overhead / PAGE)
    requires Range(start / PAGE, start / PAGE + overhead / PAGE) !! tables.Mapping().Keys
    requires Log2Roundup(overhead / PAGE) <= MAX_ORDER
    modifies tables.words, pmm.Repr()
    ensures ok <==> !old(Dry(pmm.mid, Log2Roundup(overhead / PAGE)))
    ensures ok ==> pmm.Valid() && tables.Valid() && tables.TablesTaken(pmm.Stock()) && pmm.high.free == {}
    ensures ok ==>
              tables.Mapping().Keys ==
                old(tables.Mapping().Keys) + Range(start / PAGE, start / PAGE + overhead / PAGE)
    ensures ok ==> forall q: nat :: tables.HasTable(q) <==> old(tables.HasTable(q))
    ensures ok ==> LiesIn(tables, old(pmm.Stock()), pmm.Stock(), start / PAGE, p, overhead / PAGE)
  {
    hide Pmm.Valid, AddressSpace.Valid, AddressSpace.Mapping, Range, Log2Roundup, Pow2, Dry, AddressSpace.Pde,
      BlockPages, RangeMap, AddressSpace.Walk, AddressSpace.DataPage, AddressSpace.View, OnFrames, Shifted;
    var npages := overhead / PAGE;
    NothingDry(pmm.high, Log2Roundup(npages));
    PlacedZones(pmm);
    var phys := pmm.AllocPages(NoReq, npages);
    p := phys;
    if phys == NO_BLOCK {
      return false, p;
    }
    MidBlockPages(pmm, phys, npages);
    MapBlock(pmm, tables, start, phys, npages);
    ok := true;
  }

  /** A block taken is mapped for the kernel to write, where all tables are there. */
  method MapBlock(pmm: Pmm, tables: AddressSpace, start: nat, phys: nat, n: nat)
    requires pmm.Valid() && tables.Valid() && tables.TablesTaken(pmm.Stock()) && tables.words !in pmm.Repr()
    requires start % PAGE == 0 && n > 0 && start + n * PAGE <= 0x1_0000_0000
    requires phys % PAGE == 0 && phys + n * PAGE <= 0x1_0000_0000
    requires AllManaged(start / PAGE, n) && tables.AllTables(start / PAGE, n)
    requires Range(start / PAGE, start / PAGE + n) !! tables.Mapping().Keys
    modifies tables.words, pmm.Repr()
    ensures pmm.Valid() && tables.Valid() && pmm.SameZones() && tables.SameDirectory()
    ensures tables.Mapping().Keys == old(tables.Mapping().Keys) + Range(start / PAGE, start / PAGE + n)
    ensures OnFrames(tables, start / PAGE, phys, n)
  {
    hide Pmm.Valid, Pmm.Stock, AddressSpace.Unshared, AddressSpace.Recursive, AddressSpace.Mapping, AddressSpace.Pde,
      RangeMap, AddressSpace.Walk, AddressSpace.DataPage, AddressSpace.View, TargetOf;
    var ok := tables.Map(pmm, start, phys, n, 1);
    ghost var q, m := start / PAGE, RangeMap(start / PAGE, phys, n, 1);
    forall r: nat | q <= r < q + n
      ensures r in tables.Mapping() && tables.Mapping()[r] == TargetOf(phys + (r - q) * 4096, 1)
    {
      assert r in m;
    }
    BlockMapped(tables, q, phys, n);
  }

  lemma {:induction false} PlacedZones(pmm: Pmm)
    requires pmm.Valid()
    ensures pmm.Placed() && pmm.mid.Shaped()
  {
  }

  /** A block of the zone under 4GB lies below 4GB, on a page boundary. */
  lemma {:induction false} MidBlockPages(pmm: Pmm, found: nat, n: nat)
    requires pmm.Placed() && pmm.mid.Shaped() && n > 0 && Log2Roundup(n) <= MAX_ORDER
    requires pmm.BlockOfZone(Under4GB, found, n)
    ensures found % PAGE == 0 && MB1 / PAGE <= found / PAGE
    ensures found / PAGE + Pow2(Log2Roundup(n)) <= (MB1 + pmm.mid.size) / PAGE <= FRAMES
    ensures found + n * PAGE <= 0x1_0000_0000
  {
    hide Log2Roundup;
    var b: Block :| b.order == Log2Roundup(n) && Names(pmm.mid, found, b);
    BlockSize(b);
  }

  lemma {:induction false} BlockMapped(tables: AddressSpace, q: nat, p: nat, n: nat)
    requires tables.Shaped() && p % PAGE == 0 && p + n * PAGE <= 0x1_0000_0000 && tables.Reaches(q, p, n, 1)
    requires forall r: nat :: q <= r < q + n ==>
               r in tables.Mapping() && tables.Mapping()[r] == TargetOf(p + (r - q) * 4096, 1)
    ensures OnFrames(tables, q, p, n)
  {
    hide AddressSpace.Mapping, AddressSpace.Pde;
    forall r: nat | q <= r < q + n
      ensures tables.Mapping()[r].frame == p / PAGE + (r - q)
    {
      FrameAt(p, r - q);
      TargetFrame(p + (r - q) * 4096, 1);
    }
    forall x: word | q <= x / 4096 < q + n
      ensures tables.Walk(x, true) == Some((p / PAGE + (x / 4096 - q)) * 1024 + x % 4096 / 4)
      ensures tables.Pte(x / 4096) / 4 % 2 == 0
    {
      FrameAt(p, x / 4096 - q);
      tables.SameAccess(x);
    }
  }

  lemma {:induction false} FrameAt(p: nat, i: nat)
    requires p % PAGE == 0 && p + i * PAGE < 0x1_0000_0000
    ensures (p + i * 4096) % 0x1_0000_0000 / 4096 == p / PAGE + i
  {
  }

  /** The page-rounded bookkeeping of a space. */
  function Reserve(sz: nat): (r: nat)
    ensures r % PAGE == 0 && r >= PAGE && r >= SliceStart(sz, MAX_ORDER + 1)
  {
    RoundToPage(SliceStart(sz, MAX_ORDER + 1))
  }

  class Vmspace {
    const allocator: Buddy
    const pmm: Pmm
    const tables: AddressSpace
    ghost var backed: set<nat>
    /** The backed pages that the kernel may write and user code may not reach. */
    ghost var writable: set<nat>

    ghost function Repr(): set<object> {
      {this, allocator, allocator.bank, allocator.bank.storage, tables.words} + pmm.Repr()
    }

    /** The layers share no storage. */
    ghost predicate Separate() {
      && {allocator, allocator.bank, allocator.bank.storage} !! pmm.Repr()
      && tables.words !in pmm.Repr() && tables.words !in {allocator, allocator.bank, allocator.bank.storage}
      && this !in pmm.Repr() && this !in {allocator, allocator.bank, allocator.bank.storage, tables.words}
    }

    ghost function Abs(): MemState
      requires tables.Shaped()
      reads Repr()
    {
      MemState(ZoneFree(allocator), pmm.Stock(), tables.Mapping(), backed)
    }

    /** The region lies in kernel space, where init_virtual_memory has made all tables. */
    ghost predicate Tabled()
      requires tables.Shaped()
      reads tables.words
    {
      && allocator.start + allocator.size <= 0x1_0000_0000
      && AllManaged(allocator.start / PAGE, allocator.size / PAGE)
      && tables.AllTables(allocator.start / PAGE, allocator.size / PAGE)
    }

    /** Backing frames come from the zone under 4GB and are not page tables. */
    ghost predicate FramesFit(m: map<nat, Target>)
      requires tables.Shaped()
      reads this, tables.words
    {
      forall q :: q in backed && q in m ==> FrameFits(m[q].frame)
    }

    ghost predicate FrameFits(f: nat)
      requires tables.Shaped()
      reads tables.words
    {
      && MB1 / PAGE <= f < (MB1 + pmm.mid.size) / PAGE
      && forall d: nat :: d < 1024 && Present(tables.Pde(d)) ==> Frame(tables.Pde(d)) != f
    }

    ghost predicate Valid()
      reads Repr()
    {
      && Separate()
      && allocator.Shaped() && tables.Shaped() && pmm.Placed() && pmm.mid.Shaped()
      && allocator.Valid() && pmm.Valid() && tables.Valid()
      && Tabled() && tables.TablesTaken(pmm.Stock())
      && pmm.high.free == {}
      && Isolated(Abs()) && FramesFit(tables.Mapping())
      && writable == WritablePages(tables.Mapping(), backed)
    }

    /** A space over free, unmapped addresses whose tables are all there. */
    constructor Over(z: Buddy, pmm: Pmm, tables: AddressSpace)
      requires z.Valid() && pmm.Valid() && tables.Valid() && tables.TablesTaken(pmm.Stock()) && pmm.high.free == {}
      requires {z, z.bank, z.bank.storage} !! pmm.Repr() && tables.words !in pmm.Repr() + {z, z.bank, z.bank.storage}
      requires z.start + z.size <= 0x1_0000_0000
      requires AllManaged(z.start / PAGE, z.size / PAGE) && tables.AllTables(z.start / PAGE, z.size / PAGE)
      requires ZoneFree(z) !! tables.Mapping().Keys
      ensures Valid() && allocator == z && this.pmm == pmm && this.tables == tables && backed == {}
    {
      this.allocator, this.pmm, this.tables, this.backed, this.writable := z, pmm, tables, {}, {};
    }

    /** vmspace_alloc.  It stops the kernel (ok is false) exactly when addresses are found but no
        physical block is left. */
    method Alloc(sz: nat, flags: nat) returns (ok: bool, addr: nat, ghost p: nat)
      requires Valid() && sz > 0 && sz % PAGE == 0 && Log2Roundup(sz / PAGE) <= MAX_ORDER
      modifies Repr()
      ensures addr == NO_BLOCK <==> old(Dry(allocator, Log2Roundup(sz / PAGE)))
      ensures !ok <==> flags != 0 && addr != NO_BLOCK && old(Dry(pmm.mid, Log2Roundup(sz / PAGE)))
      ensures ok ==> Valid()
      ensures addr == NO_BLOCK ==> Abs() == old(Abs()) && Dry(allocator, Log2Roundup(sz / PAGE))
      ensures !ok ==> Dry(pmm.mid, Log2Roundup(sz / PAGE))
      ensures ok && addr != NO_BLOCK ==> BlockInSpace(addr, sz / PAGE)
      ensures ok && addr != NO_BLOCK ==>
                var c := if flags != 0 then AllocBacked(addr / PAGE, p, sz / PAGE, flags)
                         else AllocBare(addr / PAGE, sz / PAGE);
                Legal(old(Abs()), c) && Abs() == Apply(old(Abs()), c)
      ensures ok && addr != NO_BLOCK ==>
                var asked := flags % 2 == 1 && flags / 4 % 2 == 0 && flags / 8 % 2 == 0;
                writable == old(writable) + if asked then Range(addr / PAGE, addr / PAGE + sz / PAGE) else {}
      ensures ok ==> tables.OthersLookSame(addr / PAGE, sz / PAGE)
    {
      hide Pmm.Valid, Buddy.Valid, AddressSpace.Valid, AddressSpace.Mapping, Dry, RangeMap,
        Range, Shifted, Log2Roundup, Pow2, AddressSpace.DataPage, AddressSpace.View, WritablePages;
      var n := sz / PAGE;
      p := 0;
      ok := true;
      ghost var s := Abs();
      addr := ZoneAlloc(allocator, n);
      tables.WordsKept();
      if addr == NO_BLOCK {
        StillFull(Log2Roundup(n));
        return;
      }
      assert Span(addr / PAGE, n) == BlockPages(addr, n);
      StepIsolated(s, AllocBare(addr / PAGE, n));
      if flags != 0 {
        ok, p := Back(addr, n, flags, s);
        if ok { AllocWritable(s, addr / PAGE, p, n, flags); }
      }
    }

    twostate lemma {:induction false} StillDry(order: nat)
      requires pmm.SameZones() && old(Dry(pmm.mid, order))
      ensures Dry(pmm.mid, order)
    {
      hide Whole;
    }

    twostate lemma {:induction false} StillFull(order: nat)
      requires allocator.free == old(allocator.free) && old(Dry(allocator, order))
      ensures Dry(allocator, order)
    {
      hide Whole;
    }

    ghost predicate BlockInSpace(addr: nat, n: nat)
      requires n > 0
    {
      exists b: Block :: b.order == Log2Roundup(n) && Names(allocator, addr, b)
    }

    /** The physical half of vmspace_alloc: one block, mapped page by page. */
    method Back(addr: nat, n: nat, flags: nat, ghost s: MemState) returns (ok: bool, ghost p: nat)
      requires Valid() && n > 0 && Log2Roundup(n) <= MAX_ORDER && BlockInSpace(addr, n)
      requires Isolated(s) && Span(addr / PAGE, n) <= s.vfree && Abs() == s.(vfree := s.vfree - Span(addr / PAGE, n))
      modifies Repr()
      ensures !ok <==> old(Dry(pmm.mid, Log2Roundup(n)))
      ensures !ok ==> Dry(pmm.mid, Log2Roundup(n))
      ensures ok ==> Valid() && CanAlloc(s, addr / PAGE, p, n) && Abs() == AllocStep(s, addr / PAGE, p, n, flags)
      ensures ok ==> tables.OthersLookSame(addr / PAGE, n)
    {
      hide Pmm.Valid, Buddy.Valid, AddressSpace.Valid, AddressSpace.Mapping, Dry, RangeMap,
        Range, Shifted, Log2Roundup, Pow2, AddressSpace.DataPage, AddressSpace.View, WritablePages;
      NothingDry(pmm.high, Log2Roundup(n));
      var found := pmm.AllocPages(NoReq, n);
      tables.WordsKept();
      var phys := found % 0x1_0000_0000;
      if phys == 0xFFFF_FFFF {
        StillDry(Log2Roundup(n));
        return false, 0;
      }
      p := phys / PAGE;
      MidPages(found, n);
      SpanHolds(p, n);
      assert CanAlloc(s, addr / PAGE, p, n);
      MapBacked(addr, phys, n, flags, s);
      ok := true;
    }

    method MapBacked(addr: nat, phys: nat, n: nat, flags: nat, ghost s: MemState)
      requires Valid() && n > 0 && Log2Roundup(n) <= MAX_ORDER && BlockInSpace(addr, n)
      requires Isolated(s) && phys % PAGE == 0 && CanAlloc(s, addr / PAGE, phys / PAGE, n)
      requires MB1 <= phys && phys / PAGE + n <= (MB1 + pmm.mid.size) / PAGE
      requires Abs() == MemState(s.vfree - Span(addr / PAGE, n), s.stock - Span(phys / PAGE, n), s.mapping, s.backed)
      requires tables.TablesTaken(s.stock)
      modifies tables.words, this, pmm.Repr()
      ensures Valid() && Abs() == AllocStep(s, addr / PAGE, phys / PAGE, n, flags)
      ensures tables.OthersLookSame(addr / PAGE, n)
    {
      hide AddressSpace.DataPage, AddressSpace.View, Pmm.Valid, Buddy.Valid,
        AddressSpace.Valid, AddressSpace.Mapping, RangeMap, Range, Shifted,
        Log2Roundup, Pow2, FrameFits, Isolated, Tabled, AddressSpace.TablesTaken, Span;
      ghost var q, p := addr / PAGE, phys / PAGE;
      RegionPages(addr, n);
      FreshPages(s, q, n);
      assert p * PAGE == phys;
      var ok := tables.Map(pmm, addr, phys, n, flags);
      backed := backed + Range(q, q + n);
      assert Abs() == AllocStep(s, q, p, n, flags);
      AllocIsolated(s, q, p, n, flags);
      FitsKept();
      NewFramesFit(s, q, p, n, flags);
      writable := WritablePages(tables.Mapping(), backed);
    }

    twostate lemma {:induction false} FitsKept()
      requires tables.Shaped() && tables.SameDirectory()
      ensures Tabled() <==> old(Tabled())
      ensures forall f: nat :: FrameFits(f) <==> old(FrameFits(f))
      ensures forall st: set<nat> :: tables.TablesTaken(st) <==> old(tables.TablesTaken(st))
    {
      assert forall r: nat :: tables.HasTable(r) <==> old(tables.HasTable(r));
    }

    lemma {:induction false} NewFramesFit(s: MemState, q: nat, p: nat, n: nat, flags: nat)
      requires tables.Shaped() && n > 0 && CanAlloc(s, q, p, n)
      requires MB1 / PAGE <= p && p + n <= (MB1 + pmm.mid.size) / PAGE
      requires tables.TablesTaken(s.stock)
      requires forall r :: r in backed && r in s.mapping && r !in Range(q, q + n) ==> FrameFits(s.mapping[r].frame)
      requires backed <= s.mapping.Keys + Range(q, q + n)
      ensures FramesFit(s.mapping + RangeMap(q, p * PAGE, n, flags))
    {
      hide RangeMap, Range, Pow2, Log2Roundup;
      RangeMapFrames(q, p, n, flags);
      SpanHolds(p, n);
      var frames := Range(p, p + n);
      forall f | f in frames
        ensures FrameFits(f)
      {
        assert f in Span(p, n);
      }
    }

    /** The pages of a block of the space have their tables. */
    lemma {:induction false} RegionPages(addr: nat, n: nat)
      requires tables.Shaped() && Tabled() && allocator.Shaped() && n > 0 && BlockInSpace(addr, n)
      ensures addr % PAGE == 0 && addr + n * PAGE <= 0x1_0000_0000 && addr / PAGE >= allocator.start / PAGE
      ensures AllManaged(addr / PAGE, n) && tables.AllTables(addr / PAGE, n)
      ensures addr / PAGE + Pow2(Log2Roundup(n)) <= FRAMES
    {
      var b: Block :| b.order == Log2Roundup(n) && Names(allocator, addr, b);
      BlockSize(b);
    }

    /** A block of the zone under 4GB: its address survives truncation and its frames fit. */
    lemma {:induction false} MidPages(found: nat, n: nat)
      requires pmm.Placed() && pmm.mid.Shaped() && n > 0 && Log2Roundup(n) <= MAX_ORDER
      requires pmm.BlockOfZone(Under4GB, found, n)
      ensures found % 0x1_0000_0000 == found && found % PAGE == 0
      ensures MB1 / PAGE <= found / PAGE
      ensures found / PAGE + Pow2(Log2Roundup(n)) <= (MB1 + pmm.mid.size) / PAGE <= FRAMES
    {
      hide Log2Roundup;
      MidBlockPages(pmm, found, n);
    }

    /** vmspace_free: the frames go back one page at a time, the addresses as one block. */
    method Free(sz: nat, addr: nat, freePhys: bool)
      requires Valid() && sz > 0 && sz % PAGE == 0 && Log2Roundup(sz / PAGE) <= MAX_ORDER
      requires BlockInSpace(addr, sz / PAGE)
      requires Legal(Abs(), GiveCall(addr, sz / PAGE, freePhys))
      modifies Repr()
      ensures Valid() && Abs() == Apply(old(Abs()), GiveCall(addr, sz / PAGE, freePhys))
      ensures writable == old(writable) - if freePhys then Range(addr / PAGE, addr / PAGE + sz / PAGE) else {}
      ensures tables.OthersLookSame(addr / PAGE, sz / PAGE)
    {
      hide AddressSpace.DataPage, AddressSpace.View, Pmm.Valid, Buddy.Valid, AddressSpace.Valid,
        AddressSpace.Mapping, Range, Shifted, Log2Roundup, Pow2, Frames, Isolated, FrameFits, Tabled;
      var n := sz / PAGE;
      ghost var s, q := Abs(), addr / PAGE;
      StepIsolated(s, GiveCall(addr, n, freePhys));
      if freePhys {
        GiveWritable(s, q, n);
        RegionPages(addr, n);
        ReleasePages(addr, n);
      }
      assert Span(q, n) == BlockPages(addr, n);
      ZoneGive(allocator, addr, n);
    }

    ghost function GiveCall(addr: nat, n: nat, freePhys: bool): Call {
      if freePhys then GiveBacked(addr / PAGE, n) else GiveBare(addr / PAGE, n)
    }

    /** The loop of vmspace_free. */
    method ReleasePages(addr: nat, n: nat)
      requires Valid() && addr % PAGE == 0 && addr + n * PAGE <= 0x1_0000_0000
      requires AllManaged(addr / PAGE, n) && Range(addr / PAGE, addr / PAGE + n) <= backed
      modifies Repr()
      ensures Valid() && Range(addr / PAGE, addr / PAGE + n) <= old(Abs()).mapping.Keys
      ensures Abs() == Released(old(Abs()), addr / PAGE, n)
      ensures tables.OthersLookSame(addr / PAGE, n)
    {
      hide AddressSpace.DataPage, AddressSpace.View, Valid, Range, Frames,
        Released, ReleaseStep, Isolated, AddressSpace.Mapping, Pmm.Stock, Shifted;
      SpaceFacts();
      ghost var s, q := Abs(), addr / PAGE;
      BackedMapped(s);
      NoPages(s, q);
      for i := 0 to n
        invariant Valid() && Range(q, q + i) <= s.mapping.Keys
        invariant Abs() == Released(s, q, i) && tables.OthersLookSame(q, n)
      {
        PageOfBlock(s, q, n, i);
        assert (addr + i * PAGE) / PAGE == q + i;
        ReleasedStep(s, q, i);
        ReleasePage(addr + i * PAGE);
      }
    }

    lemma {:induction false} SpaceFacts()
      requires Valid()
      ensures tables.Shaped() && Isolated(Abs())
    {
      hide Buddy.Valid, Pmm.Valid, AddressSpace.Valid, AddressSpace.Mapping, Isolated, FrameFits, Tabled;
    }

    /** One round of the loop of vmspace_free. */
    method ReleasePage(v: nat)
      requires Valid() && v % PAGE == 0 && v < 0x1_0000_0000
      requires v / PAGE in backed && ManagedPage(v / PAGE)
      modifies Repr()
      ensures Valid() && Abs() == ReleaseStep(old(Abs()), v / PAGE) && tables.OthersLookSame(v / PAGE, 1)
    {
      hide Pmm.Valid, Pmm.Stock, Buddy.Valid, AddressSpace.Valid, AddressSpace.Mapping, Range, Tabled,
        Isolated, FrameFits, AddressSpace.TablesTaken, Shifted, AddressSpace.DataPage, AddressSpace.View;
      ghost var s := Abs();
      ReleaseIsolated(s, v / PAGE);
      var t := tables.GetMapping(v);
      var f := t.value.frame;
      TakenPlus(s.stock, f);
      backed := backed - {v / PAGE};
      tables.WordsKept();
      GiveFrame(f);
      UnmapPage(v);
      FitsKept();
      assert FramesFit(tables.Mapping());
      writable := WritablePages(tables.Mapping(), backed);
    }

    /** free_page of the frame behind a page: nothing but the physical allocator changes. */
    method GiveFrame(f: nat)
      requires Separate() && pmm.Valid() && pmm.Placed() && pmm.mid.Shaped() && pmm.high.free == {}
      requires tables.Shaped() && allocator.Shaped() && tables.Valid() && allocator.Valid()
      requires FrameFits(f) && f !in pmm.Stock()
      modifies pmm.Repr()
      ensures pmm.Valid() && pmm.Stock() == old(pmm.Stock()) + {f} && pmm.high.free == {}
      ensures tables.Valid() && allocator.Valid()
      ensures tables.Mapping() == old(tables.Mapping()) && ZoneFree(allocator) == old(ZoneFree(allocator))
      ensures tables.OthersLookSame(0, 0)
    {
      hide Pmm.Valid, Buddy.Valid, AddressSpace.Valid,
        AddressSpace.Mapping, Shifted, FrameFits, BlockPages, Log2Roundup;
      MidPage(f);
      assert pmm.Zone(NoReq) == pmm.high;
      pmm.FreePages(f * PAGE, 1);
    }

    /** unmap of one mapped page: nothing but its entry changes. */
    method UnmapPage(v: nat)
      requires Separate() && tables.Shaped() && tables.Valid() && pmm.Valid() && allocator.Valid()
      requires v < 0x1_0000_0000 && v % PAGE == 0 && ManagedPage(v / PAGE) && v / PAGE in tables.Mapping()
      modifies tables.words
      ensures tables.Valid() && tables.SameDirectory() && pmm.Valid() && allocator.Valid()
      ensures tables.Mapping() == old(tables.Mapping()) - {v / PAGE}
      ensures pmm.Stock() == old(pmm.Stock()) && pmm.high.free == old(pmm.high.free)
      ensures ZoneFree(allocator) == old(ZoneFree(allocator)) && tables.OthersLookSame(v / PAGE, 1)
    {
      hide AddressSpace.DataPage, AddressSpace.View, Pmm.Valid, Pmm.Stock,
        Buddy.Valid, AddressSpace.Valid, AddressSpace.Mapping, Shifted, Range;
      RangeOne(v / PAGE);
      var ok := tables.Unmap(v, 1);
    }

    lemma {:induction false} TakenPlus(stock: set<nat>, f: nat)
      requires tables.Shaped() && tables.TablesTaken(stock) && FrameFits(f)
      ensures tables.TablesTaken(stock + {f})
    {
    }

    /** Allocating and freeing restores addresses, page tables and bookkeeping bytes; the physical
        pages and bytes are restored exactly when the size is a power of two. */
    method RoundTrip(sz: nat, flags: nat) returns (done: bool)
      requires Valid() && sz > 0 && sz % PAGE == 0 && Log2Roundup(sz / PAGE) <= MAX_ORDER && flags != 0
      modifies Repr()
      ensures done <==> !old(Dry(allocator, Log2Roundup(sz / PAGE))) && !old(Dry(pmm.mid, Log2Roundup(sz / PAGE)))
      ensures done ==> Valid()
      ensures done ==> Abs().vfree == old(Abs()).vfree && Abs().mapping == old(Abs()).mapping && backed == old(backed)
      ensures done ==> allocator.bank.Image() == old(allocator.bank.Image())
      ensures done ==> (pmm.Stock() == old(pmm.Stock()) <==> Pow2(Log2Roundup(sz / PAGE)) == sz / PAGE)
      ensures done && Pow2(Log2Roundup(sz / PAGE)) == sz / PAGE ==>
                && pmm.mid.bank.Image() == old(pmm.mid.bank.Image())
                && pmm.low.bank.Image() == old(pmm.low.bank.Image())
                && pmm.high.bank.Image() == old(pmm.high.bank.Image())
    {
      hide Canonical, BitBank.Valid, AddressSpace.Valid, AddressSpace.Mapping, Range, Shifted,
        Log2Roundup, Pow2, Isolated, FrameFits, Tabled, SliceStart, BitBank.Image, Dry;
      var n := sz / PAGE;
      ghost var s := Abs();
      var ok, addr, p := Alloc(sz, flags);
      if !ok || addr == NO_BLOCK {
        return false;
      }
      AllocFreeRoundTrip(s, addr / PAGE, p, n, flags);
      Free(sz, addr, true);
      SameAddresses();
      allocator.SameFreeSameBytes();
      if pmm.Stock() == old(pmm.Stock()) {
        pmm.SameStockSameZones();
        pmm.mid.SameFreeSameBytes();
        pmm.low.SameFreeSameBytes();
        pmm.high.SameFreeSameBytes();
      }
      done := true;
    }

    twostate lemma {:induction false} SameAddresses()
      requires ZoneFree(allocator) == old(ZoneFree(allocator))
      ensures allocator.free == old(allocator.free)
    {
      forall p
        ensures p in allocator.free <==> p in old(allocator.free)
      {
        assert allocator.start / PAGE + p in ZoneFree(allocator) <==>
               allocator.start / PAGE + p in old(ZoneFree(allocator));
      }
    }

    /** A writable page is one the MMU lets the kernel write, and user code not reach. */
    lemma {:induction false} WritableOpen(x: word)
      requires Valid() && x / 4096 in writable
      ensures x / 4096 in backed && tables.Walk(x, true).Some? && tables.Pte(x / 4096) / 4 % 2 == 0
    {
      hide Pmm.Valid, Pmm.Stock, Buddy.Valid, AddressSpace.Valid, Isolated, Tabled, FrameFits, AddressSpace.TablesTaken,
        AddressSpace.Walk, AddressSpace.Pde;
      tables.MappingWalk(x);
    }

    lemma {:induction false} WritableBelow(q: nat)
      requires Valid() && q in writable
      ensures q < 0x10_0000 && q in backed
    {
      hide Pmm.Valid, Pmm.Stock, Buddy.Valid, AddressSpace.Valid, Isolated, Tabled, FrameFits, AddressSpace.TablesTaken;
    }

    /** Backed pages are data pages. */
    lemma {:induction false} BackedData(r: nat)
      requires Valid() && r in backed
      ensures tables.DataPage(r)
    {
      hide Pmm.Valid, Pmm.Stock, Buddy.Valid, Frame, Present, Writable, Tabled, AddressSpace.Unshared;
      assert r in Abs().mapping && FrameFits(tables.Mapping()[r].frame);
    }

    /** Where an access to a backed page goes: into the page's own frame, which holds no table and not the
        directory, and is not free. */
    lemma {:induction false} BackedWord(v: word, write: bool)
      requires Valid() && v / 4096 in backed && tables.Walk(v, write).Some?
      ensures v / 4096 in tables.Mapping()
      ensures var f := tables.Mapping()[v / 4096].frame;
              && tables.Walk(v, write).value == f * 1024 + (v % 4096) / 4 && f !in pmm.Stock() && f != tables.dir
              && forall d: nat :: d < 1024 && Present(tables.Pde(d)) ==> Frame(tables.Pde(d)) != f
    {
      hide Pmm.Valid, Pmm.Stock, Buddy.Valid, Frame, Present, Writable, Tabled, AddressSpace.Unshared;
      assert v / 0x40_0000 == v / 4096 / 1024;
      assert v / 4096 in Abs().mapping && FrameFits(tables.Mapping()[v / 4096].frame);
    }

    /** Different words of backed pages, of one page or of two, are different words of memory. */
    lemma {:induction false} BackedWordsDiffer(u: word, v: word)
      requires Valid() && u / 4096 in backed && v / 4096 in backed && u / 4 != v / 4
      requires tables.Walk(u, false).Some? && tables.Walk(v, true).Some?
      ensures tables.Walk(u, false).value != tables.Walk(v, true).value
    {
      hide Pmm.Valid, Pmm.Stock, Buddy.Valid, Frame, Present, Writable, Tabled,
        AddressSpace.Valid, AddressSpace.Walk, AddressSpace.Mapping, FrameFits;
      BackedWord(u, false);
      BackedWord(v, true);
      if u / 4096 != v / 4096 {
        assert Abs().mapping[u / 4096].frame != Abs().mapping[v / 4096].frame;
      } else {
        WordInPage(u);
        WordInPage(v);
      }
    }

    /** A client stores a word through the MMU to a backed page.  The space stays as it was, and every other
        word of every backed page holds what it held. */
    method StoreBacked(v: word, w: word)
      requires Valid() && v / 4096 in backed && tables.Walk(v, true).Some?
      modifies tables.words
      ensures Valid() && Abs() == old(Abs())
      ensures forall u: word, write: bool :: tables.Walk(u, write) == old(tables.Walk(u, write))
      ensures tables.words[tables.Walk(v, true).value] == w
      ensures forall u: word :: u / 4096 in backed && u / 4 != v / 4 && tables.Walk(u, false).Some? ==>
                tables.words[tables.Walk(u, false).value] == old(tables.words[tables.Walk(u, false).value])
    {
      hide Pmm.Valid, Pmm.Stock, Buddy.Valid, Frame, Present, Writable, Tabled,
        AddressSpace.Valid, AddressSpace.Walk, AddressSpace.Mapping, FrameFits, Isolated;
      BackedWord(v, true);
      forall u: word | u / 4096 in backed && u / 4 != v / 4 && tables.Walk(u, false).Some?
        ensures tables.Walk(u, false).value != tables.Walk(v, true).value
      {
        BackedWordsDiffer(u, v);
      }
      ghost var f := tables.Mapping()[v / 4096].frame;
      tables.Store(v, w);
      tables.FrameWritten(f);
      FitsKept();
    }

    /** A frame of the zone under 4GB, as free_page sees it. */
    lemma {:induction false} MidPage(f: nat)
      requires tables.Shaped() && pmm.Placed() && pmm.mid.Shaped() && FrameFits(f)
      ensures Log2Roundup(1) == 0 && BlockPages(f * PAGE, 1) == {f} && Route(f * PAGE) == Under4GB
      ensures pmm.BlockOfZone(Route(f * PAGE), f * PAGE, 1)
    {
      Log2OfPow2(0);
      assert Names(pmm.mid, f * PAGE, Block(0, f - MB1 / PAGE));
    }
  }

  /** vmspace_init.  The bookkeeping is placed, page-rounded, at the top of the range; what is left
      below it needs no more bookkeeping than was set aside, and becomes free.  There is no space when
      the bookkeeping pages cannot be had. */
  method InitSpace(addr: nat, sz: nat, pmm: Pmm, tables: AddressSpace)
    returns (r: Option<Vmspace>, ghost p: nat)
    requires pmm.Valid() && tables.Valid() && tables.TablesTaken(pmm.Stock())
    requires tables.words !in pmm.Repr() && pmm.high.free == {}
    requires addr % PAGE == 0 && sz % PAGE == 0 && addr + sz <= 0x1_0000_0000
    requires AllManaged(addr / PAGE, sz / PAGE) && tables.AllTables(addr / PAGE, sz / PAGE)
    requires Range(addr / PAGE, addr / PAGE + sz / PAGE) !! tables.Mapping().Keys
    requires Reserve(sz) <= sz && Log2Roundup(Reserve(sz) / PAGE) <= MAX_ORDER
    modifies tables.words, pmm.Repr()
    ensures r.Some? <==> !old(Dry(pmm.mid, Log2Roundup(Reserve(sz) / PAGE)))
    ensures r.Some? ==>
              var vms := r.value;
              && vms.Valid() && vms.pmm == pmm && vms.tables == tables && vms.backed == {}
              && fresh(vms) && fresh(vms.allocator) && fresh(vms.allocator.bank) && fresh(vms.allocator.bank.storage)
              && vms.allocator.start == addr && vms.allocator.size == sz - Reserve(sz)
              && SliceStart(vms.allocator.size, MAX_ORDER + 1) <= Reserve(sz)
              && vms.Abs().vfree == Range(addr / PAGE, (addr + vms.allocator.size) / PAGE)
              && LiesIn(tables, old(pmm.Stock()), pmm.Stock(), (addr + sz - Reserve(sz)) / PAGE, p, Reserve(sz) / PAGE)
  {
    hide LiesIn, Pmm.Stock, Pmm.Valid, Buddy.Valid, AddressSpace.Valid, AddressSpace.Mapping, Vmspace.Valid, Range,
      Log2Roundup, Pow2, SliceStart, Dry, AddressSpace.TablesTaken, AddressSpace.Pde, Shifted;
    var whole := MemRange(addr, sz);
    var bytes := CalcOverhead(whole);
    var overhead := RoundToPage(bytes);
    var start := whole.start + whole.extent - overhead;
    var ok;
    ok, p := MapBookkeeping(pmm, tables, start, overhead);
    if !ok {
      return None, p;
    }
    var below := MemRange(addr, sz - overhead);
    OverheadMonotone(below.extent, sz, MAX_ORDER + 1);
    var z := NewAddresses(below, overhead);
    var vms := new Vmspace.Over(z, pmm, tables);
    r := Some(vms);
  }

  lemma {:induction false} WordInPage(u: word)
    ensures u / 4 == u / 4096 * 1024 + (u % 4096) / 4
  {
    assert u == u / 4096 * 4096 + u % 4096;
  }

  /** One page given back: its frame joins the stock. */
  ghost function ReleaseStep(s: MemState, q: nat): MemState
    requires q in s.mapping
  {
    s.(stock := s.stock + {s.mapping[q].frame}, mapping := s.mapping - {q}, backed := s.backed - {q})
  }

  /** The first i pages of a block given back. */
  ghost function Released(s: MemState, q: nat, i: nat): MemState
    requires Range(q, q + i) <= s.mapping.Keys
  {
    s.(stock := s.stock + Frames(s.mapping, Range(q, q + i)),
       mapping := s.mapping - Range(q, q + i), backed := s.backed - Range(q, q + i))
  }

  lemma {:induction false} ReleaseIsolated(s: MemState, q: nat)
    requires Isolated(s) && q in s.backed
    ensures q in s.mapping && s.mapping[q].frame !in s.stock && Isolated(ReleaseStep(s, q))
  {
  }

  lemma {:induction false} BackedMapped(s: MemState)
    requires Isolated(s)
    ensures s.backed <= s.mapping.Keys
  {
  }

  lemma {:induction false} NoPages(s: MemState, q: nat)
    ensures Released(s, q, 0) == s
  {
    RangeOne(q);
  }

  lemma {:induction false} PageOfBlock(s: MemState, q: nat, n: nat, i: nat)
    requires Range(q, q + n) <= s.backed <= s.mapping.Keys && i < n
    ensures Range(q, q + i + 1) <= s.mapping.Keys && q + i in Released(s, q, i).backed
  {
  }

  lemma {:induction false} ReleasedStep(s: MemState, q: nat, i: nat)
    requires Range(q, q + i + 1) <= s.mapping.Keys
    ensures q + i in Released(s, q, i).mapping
    ensures Released(s, q, i + 1) == ReleaseStep(Released(s, q, i), q + i)
  {
    RangeJoin(q, q + i, q + i + 1);
    RangeOne(q + i);
    FramesUnion(s.mapping, Range(q, q + i), {q + i});
  }
}
