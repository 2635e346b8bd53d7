/** Bringing memory up: the kernel's page tables (arch/x86/vmm.c), the storage of the zone bitmaps and
    the hand-over from the early allocator to the zones (pmm.c). */
module Boot {
  import opened Options
  import opened Arith
  import opened BuddyTheory
  import opened Banks
  import opened Buddies
  import opened PhysicalMemory
  import opened EarlyMemory
  import Bitmaps
  import PT = PageTables

  /** MMAP_KERNEL_START and MMAP_KERNEL_END, in pages. */
  const KERNEL_FIRST: nat := 0xC_0000
  const KERNEL_END: nat := 0xF_F800
  /** MMAP_PMM_BITMAP, in pages. */
  const BITMAP_FIRST: nat := 0xF_E800

  /** The boot pages are the pages left and the pages handed out early. */
  ghost predicate Accounted(early: Early, all: set<nat>)
    reads early, early.ranges
  {
    early.Left() !! early.taken && early.Left() + early.taken == all
  }

  // ---------- page tables for the kernel ----------

  /** The boot directory: entry 768 is there, tables are not shared, and no table is a boot page. */
  ghost predicate BootTables(tables: PT.AddressSpace, pages: set<nat>)
    reads tables.words
  {
    && tables.Shaped() && tables.Unshared() && tables.dir !in pages
    && PT.Present(tables.Pde(768)) && tables.TablesTaken(pages)
  }

  /** Every directory entry of the kernel's pages below q is there. */
  ghost predicate TablesBelow(tables: PT.AddressSpace, q: nat)
    requires tables.Shaped()
    reads tables.words
  {
    forall d: nat :: 768 <= d < 1022 && d * 1024 < q ==> PT.Present(tables.Pde(d))
  }

  /** The directory entries of kernel space that have no table yet. */
  ghost function Absent(tables: PT.AddressSpace): set<nat>
    requires tables.Shaped()
    reads tables.words
  {
    set d: nat | 768 <= d < 1022 && !PT.Present(tables.Pde(d))
  }

  /** The first write of init_virtual_memory: the directory's last entry points at the directory. */
  method MakeRecursive(tables: PT.AddressSpace, ghost pages: set<nat>)
    requires BootTables(tables, pages)
    requires PT.Present(tables.Pde(PT.SELF)) ==> PT.Frame(tables.Pde(PT.SELF)) == tables.dir
    modifies tables.words
    ensures tables.Valid() && tables.TablesTaken(pages) && PT.Present(tables.Pde(768))
    ensures tables.Mapping() == old(tables.Mapping()) && Absent(tables) == old(Absent(tables))
    ensures tables.Pde(1023) == tables.dir * 0x1000 + 3
  {
    hide PT.Frame, PT.Present, PT.Writable, PT.Decode;
    PT.TableFlags(tables.dir, 3);
    tables.words[tables.dir * 1024 + PT.SELF] := PT.Compose(tables.dir, 3);
    forall d: nat | d < PT.SELF
      ensures tables.Pde(d) == old(tables.Pde(d))
    {
    }
    assert tables.Pde(PT.SELF) == PT.Compose(tables.dir, 3);
    forall q: nat | q < PT.FRAMES && PT.Managed(q / 1024)
      ensures tables.Mapped(q) <==> old(tables.Mapped(q))
      ensures tables.Mapped(q) ==> tables.words[tables.PteSlot(q)] == old(tables.words[tables.PteSlot(q)])
    {
      assert tables.Pde(q / 1024) == old(tables.Pde(q / 1024));
    }
  }

  /** One round of the table-preallocation loop: a table for the page's directory entry, from the early
      allocator. */
  method MakeTable(tables: PT.AddressSpace, early: Early, q: nat) returns (ok: bool)
    requires tables.Valid() && early.Valid() && tables.TablesTaken(early.Left())
    requires KERNEL_FIRST < q < KERNEL_END && q % 1024 == 0 && !PT.Present(tables.Pde(q / 1024))
    modifies tables.words, early, early.ranges
    ensures tables.Valid() && early.Valid() && tables.TablesTaken(early.Left())
    ensures ok <==> AllGivable(old(early.ranges[..])) > 0
    ensures ok ==> early.Took(old(early.ranges[..]), 1) && Absent(tables) == old(Absent(tables)) - {q / 1024}
    ensures !ok ==> early.ranges[..] == old(early.ranges[..]) && Absent(tables) == old(Absent(tables))
    ensures ok ==>
              && PT.Present(tables.Pde(q / 1024)) && tables.Pde(q / 1024) % 4096 == 3
              && early.taken == old(early.taken) + {tables.Pde(q / 1024) / 4096}
    ensures tables.Mapping() == old(tables.Mapping()) && Accounted(early, old(early.Left() + early.taken))
    ensures forall d: nat :: d < 1024 && old(PT.Present(tables.Pde(d))) ==> PT.Present(tables.Pde(d))
    ensures old(TablesBelow(tables, q)) ==> TablesBelow(tables, q)
  {
    hide PT.Frame, PT.Present, PagesOf, Sound, PT.AddressSpace.Valid, PT.AddressSpace.Mapping, TakeMany, AllGivable;
    var p := early.AllocPage();
    if p.None? {
      return false;
    }
    PT.TableEntryParts(q * 4096);
    tables.InstallTable(q * 4096, p.value / PAGE, 3);
    ok := true;
  }

  /** What holds in the preallocation loop: the tables below page q exist, and each table made took one early
      page. */
  ghost predicate Preparing(tables: PT.AddressSpace, early: Early, q: nat, ranges: seq<MemRange>, absent: nat,
                            made: nat)
    reads tables.words, early, early.ranges
  {
    && tables.Valid() && early.Valid() && tables.TablesTaken(early.Left())
    && TablesBelow(tables, q) && early.Took(ranges, made) && made + |Absent(tables)| == absent
  }

  /** One round of the preallocation loop. */
  method PrepareSlot(tables: PT.AddressSpace, early: Early, q: nat, lastTable: nat, ghost ranges: seq<MemRange>,
                     ghost absent: nat, ghost made: nat) returns (ok: bool, table: nat, ghost made': nat)
    requires KERNEL_FIRST <= q < KERNEL_END && Preparing(tables, early, q, ranges, absent, made)
    requires PT.Present(tables.Pde(768))
    requires lastTable == if q == KERNEL_FIRST then 0 else PT.PageDirEntry((q - 1) * 4096)
    modifies tables.words, early, early.ranges
    ensures tables.Valid() && early.Valid() && tables.TablesTaken(early.Left()) && PT.Present(tables.Pde(768))
    ensures tables.Mapping() == old(tables.Mapping()) && Accounted(early, old(early.Left() + early.taken))
    ensures ok ==> Preparing(tables, early, q + 1, ranges, absent, made') && table == PT.PageDirEntry(q * 4096)
    ensures !ok ==> AllGivable(ranges) < absent
  {
    hide PT.Frame, PT.Present, PagesOf, Sound, PT.AddressSpace.Unshared, PT.AddressSpace.Mapping,
      PT.AddressSpace.TablesTaken, PT.PageDirEntry, PT.AddressSpace.Walk, TakeMany, AllGivable, TablesBelow, Absent;
    made' := made;
    ok := true;
    table := PT.PageDirEntry(q * 4096);
    SlotSteps(q);
    if table != lastTable {
      tables.WalkToPde(q * 4096, false);
      var e := tables.Load(table);
      if !PT.Present(e) {
        AbsentAt(tables, q);
        ghost var was := early.ranges[..];
        ok := MakeTable(tables, early, q);
        if ok {
          TookMore(early, ranges, made, was, 1);
          made' := made + 1;
        }
      }
    } else {
      TableBelow(tables, q);
    }
    if ok { BelowNext(tables, q); }
  }

  lemma {:induction false} BelowNext(tables: PT.AddressSpace, q: nat)
    requires tables.Shaped() && KERNEL_FIRST <= q < KERNEL_END && TablesBelow(tables, q)
    requires PT.Present(tables.Pde(q / 1024))
    ensures TablesBelow(tables, q + 1)
  {
    hide PT.Present, PT.AddressSpace.Pde;
  }

  lemma {:induction false} TableBelow(tables: PT.AddressSpace, q: nat)
    requires tables.Shaped() && KERNEL_FIRST < q < KERNEL_END && TablesBelow(tables, q) && q % 1024 != 0
    ensures PT.Present(tables.Pde(q / 1024))
  {
    hide PT.Present, PT.AddressSpace.Pde;
  }

  /** init_virtual_memory: afterwards every table of kernel space is there.  It stops exactly when the early
      allocator cannot give a page for each table that is absent. */
  method InitVirtualMemory(tables: PT.AddressSpace, early: Early) returns (ok: bool)
    requires early.Valid() && BootTables(tables, early.Left())
    requires PT.Present(tables.Pde(PT.SELF)) ==> PT.Frame(tables.Pde(PT.SELF)) == tables.dir
    modifies tables.words, early, early.ranges
    ensures tables.Valid() && early.Valid() && tables.TablesTaken(early.Left())
    ensures tables.Mapping() == old(tables.Mapping()) && Accounted(early, old(early.Left() + early.taken))
    ensures ok ==> TablesBelow(tables, KERNEL_END) && forall d: nat :: 768 <= d < 1022 ==> tables.Pde(d) % 2 == 1
    ensures ok <==> AllGivable(old(early.ranges[..])) >= |old(Absent(tables))|
    ensures ok ==> early.Took(old(early.ranges[..]), |old(Absent(tables))|)
  {
    hide PT.Frame, PT.Present, PagesOf, Sound, PT.AddressSpace.Unshared,
      PT.AddressSpace.Recursive, PT.AddressSpace.Mapping, PT.AddressSpace.TablesTaken,
      PT.AddressSpace.Pde, PT.PageDirEntry, TakeMany, AllGivable, Absent;
    MakeRecursive(tables, early.Left());
    var lastTable, q := 0, KERNEL_FIRST;
    ghost var ranges, absent, made := early.ranges[..], |Absent(tables)|, 0;
    TookNone(early);
    while q < KERNEL_END
      invariant KERNEL_FIRST <= q <= KERNEL_END && Preparing(tables, early, q, ranges, absent, made)
      invariant tables.Mapping() == old(tables.Mapping()) && Accounted(early, old(early.Left() + early.taken))
      invariant PT.Present(tables.Pde(768))
      invariant lastTable == if q == KERNEL_FIRST then 0 else PT.PageDirEntry((q - 1) * 4096)
    {
      ok, lastTable, made := PrepareSlot(tables, early, q, lastTable, ranges, absent, made);
      if !ok {
        return;
      }
      q := q + 1;
    }
    NoneAbsent(tables);
    ok := true;
  }

  lemma {:induction false} TookNone(early: Early)
    ensures early.Took(early.ranges[..], 0)
  {
  }

  lemma {:induction false} TookMore(early: Early, before: seq<MemRange>, a: nat, mid: seq<MemRange>, b: nat)
    requires mid == TakeMany(before, a) && AllGivable(mid) + a == AllGivable(before) && early.Took(mid, b)
    ensures early.Took(before, a + b)
  {
    TakeManyMore(before, a, b);
  }

  /** The table that is missing is one of those counted. */
  lemma {:induction false} AbsentAt(tables: PT.AddressSpace, q: nat)
    requires tables.Shaped() && KERNEL_FIRST <= q < KERNEL_END && !PT.Present(tables.Pde(q / 1024))
    ensures q / 1024 in Absent(tables) && |Absent(tables) - {q / 1024}| == |Absent(tables)| - 1
  {
    hide PT.Present, PT.AddressSpace.Pde;
  }

  lemma {:induction false} NoneAbsent(tables: PT.AddressSpace)
    requires tables.Shaped() && TablesBelow(tables, KERNEL_END)
    ensures Absent(tables) == {} && forall d: nat :: 768 <= d < 1022 ==> tables.Pde(d) % 2 == 1
  {
    hide PT.AddressSpace.Pde;
  }

  /** Neighbouring pages have the same directory entry unless a table ends between them. */
  lemma {:induction false} SlotSteps(q: nat)
    requires KERNEL_FIRST <= q < KERNEL_END
    ensures q * 4096 / 0x40_0000 == q / 1024 && 768 <= q / 1024 < 1022
    ensures PT.PageDirEntry(q * 4096) != 0
    ensures q > KERNEL_FIRST ==> (PT.PageDirEntry((q - 1) * 4096) == PT.PageDirEntry(q * 4096) <==> q % 1024 != 0)
  {
    assert q > KERNEL_FIRST ==> (q - 1) * 4096 / 0x40_0000 == (q - 1) / 1024;
  }

  // ---------- the hand-over ----------

  /** The pages from MMAP_PMM_BITMAP on lead to these frames, and can be written, by the kernel only. */
  ghost predicate BitmapsOn(tables: PT.AddressSpace, frames: seq<nat>)
    requires tables.Shaped()
    reads tables.words
  {
    forall x: PT.word :: 0xF_E800 <= x / 4096 < 0xF_E800 + |frames| ==>
      && tables.Walk(x, true) == Some(frames[x / 4096 - 0xF_E800] * 1024 + x % 4096 / 4)
      && tables.Pte(x / 4096) / 4 % 2 == 0
  }

  /** Frame i is the page that call i of the early allocator takes from the ranges. */
  ghost predicate TakenInTurn(ranges: seq<MemRange>, frames: seq<nat>) {
    forall i :: 0 <= i < |frames| ==>
      frames[i] in PagesOf(TakeMany(ranges, i)) && frames[i] !in PagesOf(TakeMany(ranges, i + 1))
  }

  /** The tables record the frames. */
  ghost predicate Recorded(m: map<nat, PT.Target>, frames: seq<nat>) {
    forall i :: 0 <= i < |frames| ==> BitmapAt(m, i, frames[i])
  }

  ghost predicate BitmapAt(m: map<nat, PT.Target>, i: nat, frame: nat) {
    && frame < PT.FRAMES && BITMAP_FIRST + i < KERNEL_END && BITMAP_FIRST + i in m
    && m[BITMAP_FIRST + i] == PT.TargetOf(frame * PAGE, 1)
  }

  lemma {:induction false} NoFrames(ranges: seq<MemRange>, m: map<nat, PT.Target>)
    ensures TakenInTurn(ranges, []) && Recorded(m, [])
  {
  }

  lemma {:induction false} TurnNext(ranges: seq<MemRange>, frames: seq<nat>, f: nat)
    requires TakenInTurn(ranges, frames)
    requires f in PagesOf(TakeMany(ranges, |frames|)) && f !in PagesOf(TakeMany(ranges, |frames| + 1))
    ensures TakenInTurn(ranges, frames + [f])
  {
    hide PagesOf, TakeMany;
  }

  lemma {:induction false} RecordNext(m: map<nat, PT.Target>, frames: seq<nat>, f: nat)
    requires Recorded(m, frames) && f < PT.FRAMES && BITMAP_FIRST + |frames| < KERNEL_END
    ensures Recorded(m[BITMAP_FIRST + |frames| := PT.TargetOf(f * PAGE, 1)], frames + [f])
  {
    hide PT.TargetOf;
    var m' := m[BITMAP_FIRST + |frames| := PT.TargetOf(f * PAGE, 1)];
    forall i | 0 <= i < |frames|
      ensures BitmapAt(m', i, frames[i])
    {
      assert BitmapAt(m, i, frames[i]);
    }
  }

  lemma {:induction false} RecordedWalk(tables: PT.AddressSpace, frames: seq<nat>)
    requires tables.Valid() && Recorded(tables.Mapping(), frames)
    ensures BitmapsOn(tables, frames)
  {
    hide PT.AddressSpace.Mapping, PT.AddressSpace.Walk, PT.TargetOf, PT.AddressSpace.Unshared,
      PT.AddressSpace.Recursive, PT.AddressSpace.Pde, PT.AddressSpace.PteSlot;
    forall x: PT.word | 0xF_E800 <= x / 4096 < 0xF_E800 + |frames|
      ensures tables.Walk(x, true) == Some(frames[x / 4096 - 0xF_E800] * 1024 + x % 4096 / 4)
      ensures tables.Pte(x / 4096) / 4 % 2 == 0
    {
      var i := x / 4096 - 0xF_E800;
      assert BitmapAt(tables.Mapping(), i, frames[i]);
      BitmapSlot(x / 4096);
      tables.MappingWalk(x);
      tables.SameAccess(x);
      PT.TargetBits(frames[i] * PAGE, 1);
      PT.TargetFrame(frames[i] * PAGE, 1);
    }
  }

  /** The mapping loop of init_physical_memory: early pages for the zone bitmaps.  The tables are all
      there, so map only writes entries. */
  method MapBitmaps(early: Early, tables: PT.AddressSpace, pages: nat) returns (ok: bool, ghost frames: seq<nat>)
    requires tables.Valid() && early.Valid() && tables.TablesTaken(early.Left()) && TablesBelow(tables, KERNEL_END)
    requires BITMAP_FIRST + pages <= KERNEL_END
    requires Range(BITMAP_FIRST, BITMAP_FIRST + pages) !! tables.Mapping().Keys
    modifies tables.words, early, early.ranges
    ensures tables.Valid() && early.Valid() && tables.TablesTaken(early.Left()) && TablesBelow(tables, KERNEL_END)
    ensures Accounted(early, old(early.Left() + early.taken))
    ensures ok ==> tables.Mapping().Keys == old(tables.Mapping().Keys) + Range(BITMAP_FIRST, BITMAP_FIRST + pages)
    ensures ok <==> AllGivable(old(early.ranges[..])) >= pages
    ensures ok ==> early.Took(old(early.ranges[..]), pages)
    ensures ok ==> |frames| == pages && TakenInTurn(old(early.ranges[..]), frames) && BitmapsOn(tables, frames)
  {
    hide PT.Frame, PT.Present, PagesOf, Sound, PT.AddressSpace.Unshared, PT.AddressSpace.Recursive,
      PT.AddressSpace.Mapping, Range, PT.TargetOf, TakeMany, AllGivable, BitmapsOn, PT.AddressSpace.Reaches,
      Recorded, TakenInTurn, PT.AddressSpace.DataPage, PT.AddressSpace.View, PT.AddressSpace.CowReadOnly;
    frames := [];
    NoFrames(early.ranges[..], tables.Mapping());
    RangeOne(BITMAP_FIRST);
    TookNone(early);
    for i := 0 to pages
      invariant tables.Valid() && early.Valid() && tables.TablesTaken(early.Left()) && TablesBelow(tables, KERNEL_END)
      invariant Accounted(early, old(early.Left() + early.taken))
      invariant tables.Mapping().Keys == old(tables.Mapping().Keys) + Range(BITMAP_FIRST, BITMAP_FIRST + i)
      invariant early.Took(old(early.ranges[..]), i)
      invariant |frames| == i && TakenInTurn(old(early.ranges[..]), frames) && Recorded(tables.Mapping(), frames)
    {
      var q := BITMAP_FIRST + i;
      BitmapSlot(q);
      ghost var was, m := early.ranges[..], tables.Mapping();
      var p := early.AllocPage();
      if p.None? {
        return false, frames;
      }
      TookMore(early, old(early.ranges[..]), i, was, 1);
      assert q in Range(BITMAP_FIRST, BITMAP_FIRST + pages);
      ok := tables.WriteMapping(q * 4096, p.value, 1);
      RangeJoin(BITMAP_FIRST, q, q + 1);
      RangeOne(q);
      TurnNext(old(early.ranges[..]), frames, p.value / PAGE);
      RecordNext(m, frames, p.value / PAGE);
      frames := frames + [p.value / PAGE];
    }
    RecordedWalk(tables, frames);
    ok := true;
  }

  lemma {:induction false} BitmapSlot(q: nat)
    requires BITMAP_FIRST <= q < KERNEL_END
    ensures q * 4096 / 0x40_0000 == q / 1024 && q * 4096 / 4096 == q && PT.Managed(q / 1024)
    ensures 768 <= q / 1024 < 1022 && q / 1024 * 1024 < KERNEL_END
  {
  }

  /** init_physical_memory, each zone with storage of its own.  It stops exactly when the early allocator cannot
      give the pages of the zone bitmaps. */
  method InitPhysicalMemory(early: Early, tables: PT.AddressSpace) returns (r: Option<Pmm>, ghost frames: seq<nat>)
    requires tables.Valid() && early.Valid() && tables.TablesTaken(early.Left()) && TablesBelow(tables, KERNEL_END)
    requires MB1 <= early.maxExtent < NO_BLOCK && BITMAP_FIRST + BitmapPages(early.maxExtent) <= KERNEL_END
    requires Range(BITMAP_FIRST, BITMAP_FIRST + BitmapPages(early.maxExtent)) !! tables.Mapping().Keys
    modifies tables.words, early, early.ranges
    ensures tables.Valid() && TablesBelow(tables, KERNEL_END)
    ensures r.Some? <==> AllGivable(old(early.ranges[..])) >= BitmapPages(early.maxExtent)
    ensures r.Some? ==> r.value.Stock() == PagesOf(TakeMany(old(early.ranges[..]), BitmapPages(early.maxExtent)))
    ensures r.Some? ==>
              && r.value.Valid() && fresh(r.value.Repr()) && tables.TablesTaken(r.value.Stock())
              && r.value.Stock() !! early.taken && r.value.Stock() + early.taken == old(early.Left() + early.taken)
              && (early.maxExtent <= GB4 ==> r.value.high.free == {})
              && tables.Mapping().Keys ==
                   old(tables.Mapping().Keys) + Range(BITMAP_FIRST, BITMAP_FIRST + BitmapPages(early.maxExtent))
    ensures r.Some? ==>
              && |frames| == BitmapPages(early.maxExtent)
              && TakenInTurn(old(early.ranges[..]), frames) && BitmapsOn(tables, frames)
  {
    hide PT.AddressSpace.Valid, PagesOf, Sound, PT.AddressSpace.Mapping, Range, BitmapsOn, TakenInTurn,
      Pmm.Valid, Pmm.Stock, SliceStart, PT.AddressSpace.Pde, TakeMany, AllGivable;
    var high := CalcOverhead(MemRange(GB4, HighExtent(early.maxExtent)));
    var low := CalcOverhead(MemRange(0, MB1));
    var mid := CalcOverhead(MemRange(MB1, MidExtent(early.maxExtent)));
    var ok;
    ok, frames := MapBitmaps(early, tables, RoundToPage(high + low + mid) / PAGE);
    if !ok {
      return None, frames;
    }
    var pmm := Distribute(early);
    r := Some(pmm);
  }

  /** The pages start-up takes from the early allocator: a table for each absent directory entry, and the zone
      bitmaps. */
  ghost function EarlyCalls(tables: PT.AddressSpace, maxExtent: nat): nat
    requires tables.Shaped()
    reads tables.words
  {
    |Absent(tables)| + BitmapPages(maxExtent)
  }

  /** init_memory after the ranges are known.  It stops exactly when the ranges cannot give the pages needed.
      Every whole page given at boot is afterwards either in use since boot or free in a zone, never both; all
      kernel tables exist and none is a free page. */
  method StartMemory(rs: seq<MemRange>, maxExtent: nat, tables: PT.AddressSpace)
    returns (r: Option<Pmm>, ghost used: set<nat>)
    requires |rs| < 64 && Sound(rs, maxExtent) && MB1 <= maxExtent < NO_BLOCK
    requires BootTables(tables, PagesOf(rs))
    requires PT.Present(tables.Pde(PT.SELF)) ==> PT.Frame(tables.Pde(PT.SELF)) == tables.dir
    requires BITMAP_FIRST + BitmapPages(maxExtent) <= KERNEL_END
    requires Range(BITMAP_FIRST, BITMAP_FIRST + BitmapPages(maxExtent)) !! tables.Mapping().Keys
    modifies tables.words
    ensures r.Some? <==> AllGivable(rs) >= old(EarlyCalls(tables, maxExtent))
    ensures r.Some? ==> r.value.Stock() == PagesOf(TakeMany(rs, old(EarlyCalls(tables, maxExtent))))
    ensures r.Some? ==>
              && r.value.Valid() && fresh(r.value.Repr())
              && r.value.Stock() !! used && r.value.Stock() + used == PagesOf(rs)
              && tables.Valid() && tables.TablesTaken(r.value.Stock()) && TablesBelow(tables, KERNEL_END)
              && (maxExtent <= GB4 ==> r.value.high.free == {})
              && tables.Mapping().Keys ==
                   old(tables.Mapping().Keys) + Range(BITMAP_FIRST, BITMAP_FIRST + BitmapPages(maxExtent))
  {
    hide PT.AddressSpace.Unshared, PT.AddressSpace.Recursive, PagesOf, Sound, PT.AddressSpace.Mapping,
      Range, Pmm.Valid, Pmm.Stock, BitmapPages, PT.AddressSpace.Pde, TakeMany, AllGivable, Absent;
    used := {};
    var early := new Early(rs, maxExtent);
    var ok := InitVirtualMemory(tables, early);
    if !ok {
      return None, used;
    }
    TakeManyMore(rs, |old(Absent(tables))|, BitmapPages(maxExtent));
    ghost var frames;
    r, frames := InitPhysicalMemory(early, tables);
    used := early.taken;
  }

  // ---------- storage of the zone bitmaps ----------

  /** The bytes the bitmaps of all zones take together, in pages. */
  function BitmapPages(maxExtent: nat): (n: nat)
    ensures var bytes := Overhead(HighExtent(maxExtent)) + Overhead(MB1) + Overhead(MidExtent(maxExtent));
            bytes <= n * 0x1000 < bytes + 0x1000
  {
    RoundToPage(Overhead(HighExtent(maxExtent)) + Overhead(MB1) + Overhead(MidExtent(maxExtent))) / PAGE
  }

  function Overhead(extent: nat): nat { SliceStart(extent, MAX_ORDER + 1) }

  function MidExtent(maxExtent: nat): nat {
    if maxExtent < MB1 then 0 else if maxExtent < GB4 then maxExtent - MB1 else GB4 - MB1
  }

  /** The extent of the middle zone as computed, with the subtraction of 64-bit unsigned numbers, is the one meant
      exactly from 1MB of memory up. */
  lemma {:induction false} MidExtentIff(maxExtent: nat)
    requires maxExtent <= NO_BLOCK
    ensures var least := if maxExtent < GB4 then maxExtent else GB4;
            (least - MB1) % 0x1_0000_0000_0000_0000 == MidExtent(maxExtent) <==> maxExtent >= MB1
  {
  }

  function HighExtent(maxExtent: nat): nat { if maxExtent > GB4 then maxExtent - GB4 else 0 }

  /** An empty region still takes one byte per order. */
  lemma {:induction false} EmptyOverhead(order: nat)
    ensures SliceStart(0, order) == order
  {
    if order > 0 {
      EmptyOverhead(order - 1);
      ShrBounds(0, MIN_LOG2 + order - 1);
      ShlPositive(Shr(0, MIN_LOG2 + order - 1), MIN_LOG2 + order - 1);
    }
  }

  lemma {:induction false} SmallOverheads()
    ensures Overhead(0) == 17 < Overhead(MB1) < Overhead(GB4 - MB1)
  {
    EmptyOverhead(MAX_ORDER + 1);
    Shift12(0);
    Shift12(MB1);
    Shift12(GB4 - MB1);
    OverheadStrict(0, MB1, MAX_ORDER + 1);
    OverheadStrict(MB1, GB4 - MB1, MAX_ORDER + 1);
  }

  /** The zones' bitmaps are placed at 0, overheads[0] and overheads[0] + overheads[1], where
      overheads[] is indexed by request code.  For every machine with at least 1MB two of the zones
      share a byte: the 1MB zone and the zone above it below 4GB, that one and the high zone beyond. */
  lemma {:induction false} ZoneBitmapsOverlap(maxExtent: nat) returns (shared: nat)
    requires maxExtent >= MB1
    ensures maxExtent <= GB4 ==>
              && 0 <= shared < Overhead(MB1)
              && Overhead(HighExtent(maxExtent)) <= shared
              && shared < Overhead(HighExtent(maxExtent)) + Overhead(MidExtent(maxExtent))
    ensures maxExtent > GB4 ==>
              && Overhead(HighExtent(maxExtent)) <= shared
              && shared < Overhead(HighExtent(maxExtent)) + Overhead(MidExtent(maxExtent))
              && Overhead(HighExtent(maxExtent)) + Overhead(MB1) <= shared
              && shared < Overhead(HighExtent(maxExtent)) + Overhead(MB1) + Overhead(HighExtent(maxExtent))
  {
    hide SliceStart;
    SmallOverheads();
    OverheadMonotone(0, MidExtent(maxExtent), MAX_ORDER + 1);
    OverheadMonotone(0, HighExtent(maxExtent), MAX_ORDER + 1);
    if maxExtent <= GB4 {
      shared := 17;
    } else {
      shared := Overhead(HighExtent(maxExtent)) + Overhead(MB1);
    }
  }

  /** The bytes of one order's bitmap in the 1MB zone. */
  lemma {:induction false} LowSlice(order: nat)
    ensures SliceBytes(MB1, order) == (if order <= 8 then Pow2(8 - order) else 0) / 8 + 1
  {
    assert Pow2(8) == 256;
    Shift12(MB1);
    ShrShr(MB1, MIN_LOG2, order);
    ShrOfPow2(8, order);
  }

  /** The small orders of the 1MB zone take 69 bytes. */
  lemma {:induction false} LowOrders()
    ensures SliceStart(MB1, 6) == 69
  {
    hide SliceBytes;
    LowSlice(0);
    LowSlice(1);
    LowSlice(2);
    LowSlice(3);
    LowSlice(4);
    LowSlice(5);
    assert Pow2(8) == 256 && Pow2(7) == 128 && Pow2(6) == 64 && Pow2(5) == 32 && Pow2(4) == 16 && Pow2(3) == 8;
    assert SliceStart(MB1, 1) == 33;
    assert SliceStart(MB1, 2) == 50;
    assert SliceStart(MB1, 3) == 59;
    assert SliceStart(MB1, 4) == 64;
    assert SliceStart(MB1, 5) == 67;
  }

  /** The others take one each, 80 in all. */
  lemma {:induction false} LowOverhead(order: nat)
    requires order >= 6
    ensures SliceStart(MB1, order) == 63 + order
  {
    hide SliceBytes;
    if order == 6 {
      LowOrders();
    } else {
      LowOverhead(order - 1);
      LowSlice(order - 1);
      if order <= 9 { Pow2Monotone(9 - order, 2); }
      assert Pow2(2) == 4;
    }
  }

  /** Where the bit of a block lies, for bitmaps laid out from a base: the byte, and the bit in it. */
  function BitPlace(base: nat, size: nat, b: Block): (nat, nat) {
    (base + SliceStart(size, b.order) + b.index / 8, b.index % 8)
  }

  /** The bits that are shared.  Up to 4GB the eight pages of the 1MB zone from page 136, at 0x88000, share their
      bits with the eight pages at 1MB; beyond, the pages of the zone under 4GB from its page 640 share theirs
      with the eight pages at 4GB. */
  lemma {:induction false} SharedBits(maxExtent: nat, j: nat)
    requires maxExtent >= MB1 && j < 8
    ensures var high := Overhead(HighExtent(maxExtent));
            if maxExtent <= GB4
            then && Hi(Block(0, 136 + j)) <= MB1 / PAGE
                 && BitPlace(0, MB1, Block(0, 136 + j)) == BitPlace(high, MidExtent(maxExtent), Block(0, j))
            else && Hi(Block(0, 640 + j)) <= MidExtent(maxExtent) / PAGE
                 && BitPlace(high, MidExtent(maxExtent), Block(0, 640 + j)) ==
                      BitPlace(high + Overhead(MB1), HighExtent(maxExtent), Block(0, j))
  {
    hide SliceBytes, Shl, SliceStart;
    FirstStarts();
    PageBlock(136 + j);
    PageBlock(640 + j);
    EmptyOverhead(MAX_ORDER + 1);
    LowOverhead(MAX_ORDER + 1);
  }

  lemma {:induction false} FirstStarts()
    ensures forall size: nat :: SliceStart(size, 0) == 0
  {
  }

  lemma {:induction false} PageBlock(k: nat)
    ensures Hi(Block(0, k)) == k + 1
  {
  }

  /** So freeing the page at 0x88000 marks the page at 1MB free: the first bitmaps of the two zones, laid out as
      init_physical_memory does on a machine of up to 4GB, and one bit set. */
  method FreedInBothZones(storage: array<Bitmaps.byte>, maxExtent: nat) returns (marked: bool)
    requires MB1 <= maxExtent <= GB4
    requires storage.Length >= Overhead(HighExtent(maxExtent)) + Overhead(MB1) + Overhead(MidExtent(maxExtent))
    modifies storage
    ensures marked
  {
    hide Bitmaps.Bit, SliceStart, Shr;
    EmptyOverhead(MAX_ORDER + 1);
    LowOverhead(MAX_ORDER + 1);
    LowSlice(0);
    assert Pow2(8) == 256;
    FirstSlice(MidExtent(maxExtent), MAX_ORDER + 1);
    Shift12(MB1);
    var low := new Bitmaps.Bitmap(storage, 0, BlockCount(MB1, 0));
    var mid := new Bitmaps.Bitmap(storage, Overhead(HighExtent(maxExtent)), BlockCount(MidExtent(maxExtent), 0));
    var page := 0x8_8000 / PAGE;
    low.Set(page);
    assert low.Has(page) && low.base + page / 8 == mid.base && page % 8 == 0;
    marked := mid.IsSet(0);
  }

  lemma {:induction false} FirstSlice(size: nat, order: nat)
    requires order > 0
    ensures SliceStart(size, order) >= SliceBytes(size, 0)
  {
    if order > 1 { FirstSlice(size, order - 1); }
  }

  /** A region with more pages, counted in bytes of the first bitmap, needs strictly more bytes. */
  lemma {:induction false} OverheadStrict(a: nat, b: nat, order: nat)
    requires a <= b && order > 0 && SliceBytes(a, 0) < SliceBytes(b, 0)
    ensures SliceStart(a, order) < SliceStart(b, order)
  {
    if order > 1 {
      OverheadStrict(a, b, order - 1);
      ShrMonotone(a, b, MIN_LOG2 + order - 1);
    }
  }
}
