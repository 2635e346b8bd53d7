# Verified model of the Mink kernel's memory stack

Mink is a small 32-bit x86 kernel.  This project models its memory management in Dafny and proves
what the layers rely on: that bitmaps, page tables, slabs and headers always say exactly which pages
and bytes are free and which belong to whom.  Three smaller cores, feature start-up, spinlocks and
number formatting, are modelled beside it.

The layers, from the bottom up:

* `Bitmaps`, `Banks`, `BuddyTheory`, `Buddies`, `BuddyRuns`: the buddy allocator of `buddy.c`.  Its
  state is seventeen bitmaps in one stretch of bytes; what it means is a set of free pages.  The
  invariant is that the bitmaps are the canonical form of that set: a bit is set exactly when its block
  is wholly free and its parent is not.  `CanonicalIff` shows that this is the same as disjoint blocks,
  never two free buddies, covering the free pages.  Completeness of allocation, exactness of freeing
  and independence of history follow.
* `PhysicalMemory`, `EarlyMemory`: the three zones of `pmm.c`, and the early allocator before them.
* `PageTables`: `arch/x86/vmm.c` over physical memory as an array of words, with the two-level walk of
  section 4.3 of volume 3A of the Intel SDM.  All accesses to tables go through the recursive entry.
* `Vmspaces`: `vmspace.c`, where an allocator of addresses, the physical allocator and the page tables
  have to agree.
* `Slabs`, `Kmalloc`, `HeapRuns`: the slab caches of `slab.c` and the heap of `kmalloc.c` over one
  shared address space and memory.
* `HeapMemory`: that memory as it lies in the physical words behind the page tables.
* `Boot`, `KernelStart`: start-up from the boot ranges to a working `kmalloc`.
* `Features`: the dependency-ordered start of `kmain.c`.
* `Spinlocks`, `Interrupts`, `KernelLocks`: `locking.c` as atomic steps of any number of CPUs, what it
  does to their interrupt flags, and the lock order of the memory code.
* `Numbers`: `number` and `skip_atoi` of `vsprintf.c`.

Objects that the C code updates in place are classes; the abstract value of each (free pages, the map
from pages to frames, live objects) is a ghost field or function that the invariant ties to the bytes.
A `panic`, a failed assertion or a result the caller cannot survive is a result `ok == false`, `None`
or `NO_BLOCK`, and the contracts say exactly when it occurs (for `map` over missing tables page by page,
in `MapOnePage`).

Seven properties one might expect do not hold of the code.  Each has the exact condition:

* `buddy_free_range` frees exactly the whole pages of an unaligned range only when the bytes skipped at
  the front are covered by the left-over bytes at the end (`FreeRangeExactIff`, `FreeRangeOverrun`).
* `vmspace_free` after `vmspace_alloc` restores the physical pages only for a power of two of pages
  (`AllocFreeRoundTrip`, `RoundTrip`, `ThreePagesLoseOne`).
* Objects of a slab stay clear of its bitmap only when the size fits; of `kmalloc`'s classes those of
  8, 16 and 32 bytes do not, which are the classes of requests of up to 28 bytes (`ObjectsClearIff`,
  `ClassFitsIff`, `RequestFitsIff`).
* The bitmaps `init_physical_memory` lays out overlap on every machine with at least 1MB
  (`ZoneBitmapsOverlap`): up to 4GB, freeing the page at 0x88000 marks the page at 1MB free
  (`SharedBits`, `FreedInBothZones`).  Here every zone has storage of its own.
* The extent it computes for the zone under 4GB wraps around below 1MB of memory, and only there
  (`MidExtentIff`).
* A block of `kmalloc` holds the header and the bytes asked for exactly when they come to at most 2GB.
  Above that `1U << 32` is computed, which the x86 shift makes 1, and one page is taken for a request of
  2GB (`BlockHoldsIff`, `HugeClass`, `TwoGigabytes`).
* Spinlocks restore the interrupt flags in every run if and only if no lock is used by two CPUs to save
  different values, an outermost acquire saving the CPU's flag and an inner one saving that interrupts
  are off (`RestoredIff`).  One CPU always qualifies; two CPUs with interrupts on, in `alloc_pages` and in
  `vmspace_alloc`, do not (`TwoCallersNotRestored`).

## Model

| member | source | states |
|---|---|---|
| `Arith.Log2Roundup` | buddy.c:15-24 | the smallest power of two that is at least n: n <= 2^r, and 2^(r-1) < n |
| `Arith.Log2RoundupUnique` | utils.c:92-101 | no other exponent has n in (2^(r-1), 2^r] |
| `Bitmaps.LsbSet` | bitmap.c:11-21 | the lowest set bit of a nonzero byte; terminates |
| `Bitmaps.Bitmap.constructor` | bitmap.c:23-28 | the slice becomes zero and no byte outside it changes |
| `Bitmaps.Bitmap.Set` | bitmap.c:30-33 | exactly one bit of the slice becomes set, no byte outside the slice changes |
| `Bitmaps.Bitmap.Clear` | bitmap.c:35-37 | exactly one bit of the slice becomes clear, no byte outside the slice changes |
| `Bitmaps.Bitmap.FirstSet` | bitmap.c:46-54 | the least set index, and -1 exactly when no index up to the extent is set |
| `Banks.CalcOverhead` | buddy.c:26-31 | the bytes of all seventeen slices together |
| `Banks.SlicesDisjoint` | buddy.c:38-42 | slices of different orders do not overlap |
| `Banks.SliceOfByte` | buddy.c:38-42 | the slices leave no byte of the overhead over |
| `Banks.OverheadMonotone` | buddy.c:26-31 | a smaller region needs no more bookkeeping bytes |
| `Banks.BlockFits` | buddy.c:39-40 | the blocks counted for an order are exactly those inside the region |
| `Banks.EncodingUnique` | bitmap.c:23-41 | a set of blocks has one encoding in bytes |
| `Banks.BytesFromFreePages` | buddy.c:50-165 | equal free pages give identical bitmap bytes, whatever the history |
| `Banks.BitBank.constructor` | buddy.c:33-42 | the seventeen bitmaps lie end to end in the storage and are empty |
| `Banks.BitBank.Set` | buddy.c:140-141 | one block's bit is set, all bits of all other orders stay |
| `Banks.BitBank.Clear` | buddy.c:156-158 | one block's bit is cleared, all bits of all other orders stay |
| `Banks.BitBank.First` | buddy.c:62-67 | the leftmost set block of the order, or -1 when none is in range |
| `Banks.BitBank.TouchedBitsInSlice` | buddy.c:147-158 | the block's and its buddy's bit, also one past the last block, lie in the slice of their own order |
| `BuddyTheory.NestedOrApart` | buddy.c:11-13 | two blocks are nested or disjoint, and nesting passes to parents |
| `BuddyTheory.Siblings` | buddy.c:11-13 | a block and its buddy are the two disjoint halves of the parent |
| `BuddyTheory.CanonicalUnique` | buddy.c:50-165 | the bitmaps are a function of the free pages |
| `BuddyTheory.CanonicalCovers` | buddy.c:50-165 | the free pages are a function of the bitmaps |
| `BuddyTheory.CanonicalIff` | buddy.c:50-165 | canonical if and only if pairwise disjoint, never two free buddies, covering the free pages |
| `BuddyTheory.Climb` | buddy.c:58-70 | every wholly free block lies in a block whose bit is set, so the upward search is complete |
| `BuddyTheory.FirstFitUnique` | buddy.c:58-70 | which block the search finds depends on the free pages alone |
| `BuddyTheory.LeftPart` | buddy.c:76-87 | a wholly free block starts with wholly free blocks of all smaller orders |
| `BuddyTheory.RemoveHead` | buddy.c:89-91 | clearing the bit of a free block keeps canonical form for the smaller set |
| `BuddyTheory.AddLone` | buddy.c:140-150 | setting the bit of a block without free buddy keeps canonical form for the larger set |
| `BuddyTheory.SplitStep` | buddy.c:77-87 | splitting keeps canonical form with only the right half given back |
| `BuddyTheory.MergeStep` | buddy.c:147-162 | taking both buddies out turns freeing the block into freeing its parent |
| `BuddyTheory.BuddyBit` | buddy.c:147-150 | the buddy's bit tells whether the buddy is wholly free |
| `Buddies.Buddy.constructor` | buddy.c:33-48 | canonical, with nothing or exactly the whole pages of the region free |
| `Buddies.Buddy.FindBlock` | buddy.c:58-74 | the leftmost set block of the least sufficient order, or none when no block of the order is wholly free |
| `Buddies.Buddy.SplitBlock` | buddy.c:77-87 | one round of splitting keeps the rest canonical |
| `Buddies.Buddy.Alloc` | buddy.c:50-95 | ~0 exactly when no block of the rounded order is wholly free; else an in-range aligned block that was wholly free leaves the free set, and nothing else does: the left end of the leftmost of the smallest sufficient free blocks |
| `Buddies.Buddy.BlockAtAddress` | buddy.c:93-94 | the address handed out leads back to the same block |
| `Buddies.Buddy.MergeBlock` | buddy.c:137-163 | one round of merging: a lone block stays set, or both buddies are out and the parent is in range |
| `Buddies.Buddy.MergeInRegion` | buddy.c:152-154 | merging never passes the end of the region, so the check the comment asks for is not needed |
| `Buddies.Buddy.Free` | buddy.c:132-165 | exactly the freed block joins the free pages, in canonical form |
| `Buddies.Buddy.FreePiece` | buddy.c:114-127 | each piece is the largest aligned one that fits |
| `Buddies.Buddy.FreeRange` | buddy.c:102-130 | exactly extent / 4096 consecutive pages from the rounded-up start become free, tiled greedily; terminates |
| `Buddies.Buddy.SameFreeSameBytes` | buddy.c:50-165 | equal free pages at two moments mean equal bytes |
| `Buddies.PieceFacts` | buddy.c:116-126 | what the inner loop picks is aligned to its size relative to the region start, and no larger block is |
| `Buddies.FreeRangeExactIff` | buddy.c:102-112 | the pages freed are the whole pages of the range exactly under a condition on start and extent |
| `Buddies.FreeRangeOverrun` | buddy.c:105-112 | an unaligned range of one page's length frees a page outside it |
| `BuddyRuns.TakeConserves` | buddy.c:50-95 | an allocation moves pages from free to lent and loses none |
| `BuddyRuns.GiveConserves` | buddy.c:132-165 | a free moves them back |
| `BuddyRuns.AddConserves` | buddy.c:102-130 | a range from outside adds exactly its pages |
| `BuddyRuns.Serve` | buddy.c:50-165 | any run of alloc, free and free_range: canonical, live blocks disjoint from each other and from the free pages, every page accounted for; answers and free pages are a function of the free pages at the start and the requests |
| `BuddyRuns.HistoryIndependence` | buddy.c:50-165 | two runs whose clients hold the same pages end with identical bytes |
| `BuddyRuns.ServeTwins` | buddy.c:50-165 | the same requests to two allocators that begin alike get the same answers and leave the same bytes |
| `PhysicalMemory.Pmm.constructor` | pmm.c:136-171 | three separate, empty zones at 0, 1MB and 4GB |
| `PhysicalMemory.Pmm.AllocFrom` | pmm.c:62-66 | one block of one zone leaves the stock, other zones stay |
| `PhysicalMemory.Pmm.AllocPages` | pmm.c:62-73 | fails exactly when the zone, and for no requirement also the zone under 4GB, has no block of the order; then no zone changes |
| `PhysicalMemory.Pmm.RoutesBack` | pmm.c:82-86 | the zone chosen by address is the zone that produced the block |
| `PhysicalMemory.Pmm.FreePages` | pmm.c:79-92 | exactly the block joins the stock, in its own zone |
| `PhysicalMemory.Pmm.SameStockSameZones` | pmm.c:37-92 | the whole stock determines every zone |
| `PhysicalMemory.Log2Pages` | pmm.c:66-69 | rounding pages and rounding bytes agree |
| `PageTables.EntryRoundTrip` | arch/x86/vmm.c:31-46 | what map writes is present and decodes to the frame and the flags recorded |
| `PageTables.TargetBits` | arch/x86/vmm.c:154-158 | of the flags recorded, bit 0 (WRITE) is set exactly if it was given without bit 3 (COW); bits 1 to 3 are as given |
| `PageTables.DecodeBits` | arch/x86/vmm.c:31-38 | WRITE is read from bit 1 of the entry, USER from bit 2, EXECUTE from bit 9, COW from bit 10, the frame from the upper twenty |
| `PageTables.AddressSpace.WalkToPde` | arch/x86/vmm.c:120-122 | through the recursive entry PAGE_DIR_ENTRY reaches the directory entry of every address |
| `PageTables.AddressSpace.WalkToPte` | arch/x86/vmm.c:118-119 | PAGE_TABLE_ENTRY reaches the table entry of every address whose table is present |
| `PageTables.AddressSpace.MappingWalk` | arch/x86/vmm.c:282-294 | the represented map is what the MMU does: mapped exactly if readable, WRITE exactly if writable, the access goes to the frame, USER is bit 2 of the entry |
| `PageTables.AddressSpace.MappedReaches` | arch/x86/vmm.c:168-169 | pages recorded with given flags are walked to their frames, and can be written exactly if bit 0 of the flags is set and bit 3 is not |
| `PageTables.AddressSpace.SlotsDiffer` | arch/x86/vmm.c:118-119 | different pages have their entries in different words |
| `PageTables.AddressSpace.OneEntry` | arch/x86/vmm.c:168-169 | writing one entry changes the represented map at one page, and no other data page looks different |
| `PageTables.AddressSpace.FrameWritten` | arch/x86/vmm.c:105-122 | writes to a frame that holds neither the directory nor a table change no translation |
| `PageTables.AddressSpace.GetMapping` | arch/x86/vmm.c:282-294 | returns exactly the represented map; WRITE in the flags exactly if the walk lets a write through, and never with COW where no page was both |
| `PageTables.AddressSpace.ZeroTable` | arch/x86/vmm.c:141-144 | clears one table through the recursive entry and touches no other word |
| `PageTables.AddressSpace.NewTable` | arch/x86/vmm.c:139-144 | a cleared table in an unused frame leaves the map as it was |
| `PageTables.AddressSpace.InstallTable` | arch/x86/vmm.c:139-144 | the directory entry and the cleared table keep the map and all other entries |
| `PageTables.AddressSpace.EnsureTable` | arch/x86/vmm.c:131-146 | fails exactly when the table is missing and no page is left; allocates nothing when the table is there; a new table is user-accessible and writable, in the one page that left the stock |
| `PageTables.AddressSpace.WriteMapping` | arch/x86/vmm.c:163-169 | stops exactly when the page is mapped already, else updates one page; the walk then reaches p, writable exactly if bit 0 of flags is set and bit 3 is not, USER exactly if bit 2 is |
| `PageTables.AddressSpace.MapOnePage` | arch/x86/vmm.c:150-174 | exact success condition, the map updated at one page, and what the walk then finds: frame, writability and USER from the bits of flags |
| `PageTables.AddressSpace.Map` | arch/x86/vmm.c:179-187 | the range is added to the map, and the walk reaches frame after frame, writable exactly if bit 0 of flags is set and bit 3 is not, USER exactly if bit 2 is; with all tables present no page is allocated and every other data page keeps entry and contents |
| `PageTables.AddressSpace.UnmapOnePage` | arch/x86/vmm.c:192-229 | stops exactly when the page is not mapped, else removes it; the walk finds nothing there |
| `PageTables.AddressSpace.Unmap` | arch/x86/vmm.c:231-237 | succeeds exactly when the whole range is mapped, and removes it; the walk finds nothing there; every other data page keeps entry and contents |
| `Vmspaces.AllocIsolated` | vmspace.c:39-61 | an allocation keeps backed pages on distinct frames outside the stock |
| `Vmspaces.GiveIsolated` | vmspace.c:63-80 | so does giving back |
| `Vmspaces.AllocFreeRoundTrip` | vmspace.c:39-80 | addresses and tables are restored always, the stock exactly for a power of two of pages, else the rounded-up tail is lost |
| `Vmspaces.ThreePagesLoseOne` | vmspace.c:45-74 | three pages allocated and freed lose the fourth |
| `Vmspaces.AllocWritable` | vmspace.c:45-57 | the pages of an allocation become kernel-writable exactly if bit 0 of the flags is set and bits 2 and 3 are not; no other page does |
| `Vmspaces.GiveWritable` | vmspace.c:66-75 | giving back takes exactly the pages given back from the kernel-writable ones |
| `Vmspaces.StepIsolated` | vmspace.c:39-80 | every call keeps isolation |
| `Vmspaces.StepWealth` | vmspace.c:39-80 | no call makes up a physical page, and only rounding loses any |
| `Vmspaces.RunsIsolated` | vmspace.c:39-80 | over every run: isolation, and exact conservation when sizes are powers of two |
| `Vmspaces.NewAddresses` | vmspace.c:30-34 | every page of the shortened range becomes a free address |
| `Vmspaces.MapBookkeeping` | vmspace.c:21-28 | fails exactly when no block is left; else one block leaves the stock, and the bookkeeping pages lead, in order, to its frames, which the kernel may write, user code may not reach and no table lies in |
| `Vmspaces.MapBlock` | vmspace.c:25-28 | a block mapped where all tables are there: frame after frame, writable, not for user code, no page allocated |
| `Vmspaces.InitSpace` | vmspace.c:11-37 | the bookkeeping lies outside the managed range, on the frames of the one block taken from the stock, and suffices after the shortening |
| `Vmspaces.Vmspace.Alloc` | vmspace.c:39-61 | exact failure conditions; the three layers make exactly the abstract step; which pages become kernel-writable is told from the bits of the flags; the contents of other pages stay |
| `Vmspaces.Vmspace.Back` | vmspace.c:45-57 | one physical block mapped page by page |
| `Vmspaces.Vmspace.Free` | vmspace.c:63-80 | the three layers make exactly the abstract step, and the contents of other pages stay |
| `Vmspaces.Vmspace.ReleasePages` | vmspace.c:66-75 | the loop gives back each frame and unmaps each page |
| `Vmspaces.Vmspace.ReleasePage` | vmspace.c:69-73 | one round of the loop |
| `Vmspaces.Vmspace.RoundTrip` | vmspace.c:39-80 | alloc then free restores the virtual bytes and the map, and the physical bytes of all zones for a power of two |
| `Vmspaces.Vmspace.BackedWord` | vmspace.c:45-57 | an access to a backed page goes to the page's own frame, which is no table, not the directory and not free |
| `Vmspaces.Vmspace.WritableOpen` | vmspace.c:45-57 | on a kernel-writable page the walk lets every write through, and the USER bit is clear |
| `Vmspaces.Vmspace.BackedWordsDiffer` | vmspace.c:45-57 | different words of backed pages are different words of memory |
| `Vmspaces.Vmspace.StoreBacked` | vmspace.c:45-57 | a client's store through the MMU changes one word of one backed page, and no translation, table or allocator |
| `EarlyMemory.Early.AllocPage` | pmm.c:94-113 | stops exactly when no range starts from 1MB up to below 4GB with more than 4096 bytes; else takes the first page of the first range that does |
| `EarlyMemory.Early.constructor` | pmm.c:115-126 | the ranges as given, nothing taken |
| `EarlyMemory.NothingGivable` | pmm.c:96-102 | nothing can be given exactly when every range is passed over |
| `EarlyMemory.GivableIff` | pmm.c:97-107 | page k of a range can be given exactly if the range starts at 1MB or above, the page starts below 4GB and the range goes on behind it |
| `EarlyMemory.GivableClosed` | pmm.c:97-107 | the number of pages a range can give, from its start and extent |
| `EarlyMemory.TakeManyAt` | pmm.c:104-109 | some calls take at most that many pages from a range, all from its start |
| `EarlyMemory.TakeOneAt` | pmm.c:104-109 | one call takes one page of what can be given |
| `EarlyMemory.SplitRange` | pmm.c:39-56 | the two parts are disjoint and together hold the same pages, one below and one above the limit |
| `EarlyMemory.GiveParts` | pmm.c:177-191 | the parts of a range go to the zones they lie in, no page lost |
| `EarlyMemory.Distribute` | pmm.c:136-191 | exactly the pages still left become free |
| `Boot.MakeRecursive` | arch/x86/vmm.c:333-334 | the last directory entry is the directory's frame, present and writable; the map stays |
| `Boot.MakeTable` | arch/x86/vmm.c:339-345 | stops exactly when no early page is left, else one kernel table in the one early page taken |
| `Boot.PrepareSlot` | arch/x86/vmm.c:338-349 | one round of the loop: each table made takes one early page |
| `Boot.InitVirtualMemory` | arch/x86/vmm.c:318-349 | stops exactly when there are fewer early pages than absent tables, else the directory entries 768 to 1021 are all present and none of their tables lies in a free page |
| `Boot.MapBitmaps` | pmm.c:153-160 | stops exactly when there are too few early pages; else bitmap page i leads to the page the i-th call of the early allocator took, writable, not for user code, and no table is made |
| `Boot.RecordedWalk` | pmm.c:157-158 | what the tables record for the bitmap pages is what the walk finds |
| `Boot.InitPhysicalMemory` | pmm.c:128-196 | stops exactly when there are too few early pages; else the bitmaps lie on early pages taken in turn, and free and early pages are disjoint and together the boot pages |
| `Boot.StartMemory` | arch/x86/mem.c:78-80 | stops exactly when the boot ranges cannot give the tables and bitmaps; else every whole boot page is either in use since boot or free in a zone |
| `Boot.SmallOverheads` | pmm.c:148-151 | the gap left for the 1MB zone is 17 bytes, less than it needs |
| `Boot.MidExtentIff` | pmm.c:140-142 | the computed extent of the zone under 4GB is the one meant exactly from 1MB up |
| `Boot.ZoneBitmapsOverlap` | pmm.c:148-171 | for every memory size from 1MB two zones share a bitmap byte |
| `Boot.LowOverhead` | pmm.c:148-151 | the bitmaps of the 1MB zone take 80 bytes |
| `Boot.SharedBits` | pmm.c:163-171 | which eight pages of one zone share their bits with which eight of another |
| `Boot.FreedInBothZones` | pmm.c:163-168 | setting the bit of the page at 0x88000 marks the page at 1MB free |
| `KernelStart.OverheadBound` | buddy.c:26-31 | the overhead is at most seventeen times that of the smallest order |
| `KernelStart.BookkeepingFits` | kmalloc.c:73-75 | the kernel's address space has room for its bookkeeping, in one block |
| `KernelStart.BitmapsFit` | include/x86/mmap.h:20-23 | up to 4GB the zone bitmaps fit the window reserved for them |
| `KernelStart.SpaceTables` | arch/x86/vmm.c:336-349 | the preallocated tables cover the kernel's address space |
| `KernelStart.MidBlock` | pmm.c:66-69 | a block can be had exactly when the free pages hold one between 1MB and 4GB |
| `KernelStart.EightMegabytesStart` | arch/x86/mem.c:78-80 | one range of 8MB between 1MB and 4GB is enough for start-up not to stop, whatever the other ranges and the tables |
| `KernelStart.InitHeap` | kmalloc.c:69-87 | a sound, empty heap over 0xD0000000 exactly when the bookkeeping pages can be had; the pages below 0xFE800000 then lead to the block taken |
| `KernelStart.StartKernel` | arch/x86/mem.c:78-80 | from sound boot ranges up to 4GB: stops exactly when early pages or the block for the bookkeeping are lacking, told from the ranges; else a sound heap and a stock of boot pages not in use |
| `KernelStart.StartAndServe` | kmalloc.c:25-87 | start-up and any run of a client: stops exactly as start-up does, or at a block that cannot be had; else the client's blocks are distinct and hold what it last wrote |
| `Slabs.MaskFindsSlab` | slab.c:17-19 | an address inside an object leads to its slab's footer and start, and gives back the index |
| `Slabs.SlabShape` | slab.c:123-132 | as many objects as fit in 8188 bytes, at least one and at most eight bits to spare in the bitmap, the footer in the last four bytes of the slab |
| `Slabs.ObjectsApart` | slab.c:124-137 | objects of any slabs share no byte |
| `Slabs.ObjectsClearIff` | slab.c:123-132 | objects stay below the bitmap if and only if the size fits |
| `Slabs.ClassFitsIff` | kmalloc.c:80-83 | of the classes 8 to 512 exactly those from 64 up fit |
| `Slabs.ObjectWriteKeeps` | slab.c:56-117 | no write inside an object disturbs the cache |
| `Slabs.MarkedBits` | slab.c:152-170 | marking changes one bit of one slab |
| `Slabs.MarkedRecorded` | slab.c:152-170 | after marking the bitmaps record exactly the new live set |
| `Slabs.LsbClear` | slab.c:182-189 | the lowest clear bit of a byte that is not full |
| `Slabs.ClearKeeps` | slab.c:142-147 | clearing a slab that is not on the list leaves the cache as it is |
| `Slabs.CreateKeeps` | slab.c:74-77 | a slab with a clear bitmap in front keeps the list acyclic and the bitmaps right |
| `Slabs.DropKeeps` | slab.c:103-113 | so does dropping the last slab when it holds no live object |
| `Slabs.ConsistentLocal` | slab.c:56-117 | a cache depends only on the bytes and links of its own slabs |
| `Slabs.SlabCache.constructor` | slab.c:35-43 | an empty cache, sound whenever the object size fits |
| `Slabs.SlabCache.FindEmptyObj` | slab.c:191-203 | NULL exactly when every object is used, else the first unused object |
| `Slabs.SlabCache.AllUnused` | slab.c:172-180 | true exactly when no bit is set |
| `Slabs.SlabCache.Mark` | slab.c:152-170 | writes one bit of one bitmap byte |
| `Slabs.SlabCache.SearchFrom` | slab.c:66-70 | an unused object of the list, or every slab from here on is full |
| `Slabs.SlabCache.AllocHinted` | slab.c:60-70 | the hint becomes live, and the new hint is unused or NULL with the slabs from here on full |
| `Slabs.SlabCache.AllocNew` | slab.c:72-84 | a new slab at the head, its first object live |
| `Slabs.SlabCache.Create` | slab.c:139-150 | fails exactly when addresses or pages are used up; else an aligned slab, none of the cache's own, that the walk lets the kernel write, with clear bitmap and NULL link, nothing else written |
| `Slabs.TakeSlab` | slab.c:140-140 | two pages not in use before, on a slab boundary; the walk lets the kernel write all 8192 bytes, and the USER bit is clear |
| `Slabs.SlabOpen` | slab.c:140-147 | every byte of a slab can be written by the kernel, and none is open to user code |
| `Slabs.SlabCache.InitObject` | slab.c:85-86 | the object holds the initial bytes, nothing else changes |
| `Slabs.SlabCache.Alloc` | slab.c:56-90 | the object was not live and is; hint, list and failure exactly as the code has it; other objects' bytes and other slabs stay |
| `Slabs.SlabCache.Release` | slab.c:96-101 | the object is no longer live, the hint is the lower of the two |
| `Slabs.SlabCache.Unlink` | slab.c:104-113 | the last slab leaves the list and a hint into it is dropped |
| `Slabs.SlabCache.Free` | slab.c:92-117 | exactly the object stops being live; the last slab goes back exactly when it has no live object left |
| `Slabs.SlabCache.ClientWrite` | slab.c:56-117 | a client's write leaves the cache and all other objects alone |
| `Kmalloc.ClassFits` | kmalloc.c:34-45 | up to 2GB the class is offered, holds the request, and is the smallest such |
| `Kmalloc.BlockHoldsIff` | kmalloc.c:30-45 | header and request fit the block exactly when they come to at most 2GB |
| `Kmalloc.HugeClass` | kmalloc.c:41-45 | beyond 2GB the shift is by 32 and the class is that of a page |
| `Kmalloc.TwoGigabytes` | kmalloc.c:41-45 | a request for 2GB is answered with one page |
| `Kmalloc.RequestFitsIff` | kmalloc.c:34-38 | a slab request goes to a class whose objects fit exactly when it is for more than 28 bytes |
| `Kmalloc.ChooseClass` | kmalloc.c:34-45 | the class recorded for every request, with the 32-bit shift; 10, 11 and 32 become a page |
| `Kmalloc.ByteOf` | kmalloc.c:50-50 | the class survives being stored in the low byte |
| `Kmalloc.HeaderRoundTrip` | kmalloc.c:50-61 | an unmodified header is the word 0xDEAD1200 + class; it decodes to the class, and the canary passes |
| `Kmalloc.CanaryIff` | kmalloc.c:58-61 | the canary passes exactly when the upper three bytes are as written |
| `Kmalloc.BlocksApart` | kmalloc.c:25-52 | no byte belongs to two live blocks, of whatever classes |
| `Kmalloc.AddObject` | kmalloc.c:37-38 | a fresh object is no block of any class, and becoming one keeps all blocks apart |
| `Kmalloc.AddBig` | kmalloc.c:47-48 | a fresh whole block overlaps no slab and no other block |
| `Kmalloc.CacheStepKeeps` | kmalloc.c:37-38 | a step of one cache changes no byte of any other block |
| `Kmalloc.BlockWriteKeeps` | kmalloc.c:50-51 | a write inside one block changes no byte of another block or of any slab's bookkeeping |
| `Kmalloc.NewBlock` | kmalloc.c:47-48 | pages not in use before, exact failure condition; the walk lets the kernel write every byte, and the USER bit is clear |
| `Kmalloc.ByteWritable` | kmalloc.c:47-51 | every byte of every block lies on a kernel-writable page |
| `Kmalloc.Heap.BlockOpen` | kmalloc.c:47-51 | in a sound heap the walk lets the kernel write every byte of every live block, below 4GB, and none is open to user code |
| `Kmalloc.GiveBlock` | kmalloc.c:65-66 | exactly the block's pages are given back |
| `Kmalloc.NewCaches` | kmalloc.c:80-83 | seven distinct, empty caches for 8 to 512 bytes, sound from 64 bytes up |
| `Kmalloc.Heap.constructor` | kmalloc.c:69-87 | a sound heap without blocks, over the seven caches |
| `Kmalloc.Heap.TakeSmall` | kmalloc.c:37-38 | a block new to the whole heap, tagged; all other caches and blocks stay sound and unchanged |
| `Kmalloc.Heap.GiveSmall` | kmalloc.c:63-64 | the object leaves its own cache; all other blocks keep their bytes |
| `Kmalloc.Heap.TakeBig` | kmalloc.c:39-50 | a whole block, tagged; all caches and blocks stay sound and unchanged |
| `Kmalloc.Heap.GiveBig` | kmalloc.c:65-66 | the whole block goes back |
| `Kmalloc.Heap.Kmalloc` | kmalloc.c:25-52 | a new block of the recorded class, holding header and request exactly up to 2GB; exact condition for stopping; every byte of every other block kept |
| `Kmalloc.Heap.Kfree` | kmalloc.c:54-67 | the canary passes, the block goes back to the class or size it came from, every byte of every other block kept |
| `Kmalloc.Heap.Write` | kmalloc.c:50-51 | a client's write past the header keeps the heap sound and all other blocks unchanged |
| `HeapRuns.Serve` | kmalloc.c:25-67 | any run of kmalloc, kfree and writes from any sound heap: served to the end or to the first block that cannot be had; the client's blocks are distinct and hold what it last wrote, everybody else's keep every byte |
| `HeapRuns.AskStep` | kmalloc.c:25-52 | an answer of kmalloc disturbs nothing the client or others hold |
| `HeapRuns.ReturnStep` | kmalloc.c:54-67 | nor does kfree |
| `HeapRuns.FillStep` | kmalloc.c:50-51 | a write is noted in its own block and changes no other |
| `HeapMemory.StoredByte` | arch/x86/vmm.c:118-119 | a byte store changes one byte of its word |
| `HeapMemory.LoadSees` | arch/x86/vmm.c:118-119 | a load from a backed page finds the word that flat memory reflects |
| `HeapMemory.SeenIff` | arch/x86/vmm.c:118-119 | flat memory reflects the backed pages exactly when it is what loads find there |
| `HeapMemory.StoreByte` | vmspace.c:45-57 | a byte stored through the MMU changes flat memory at that byte only, and it still reflects physical memory |
| `HeapMemory.StoreBytes` | kmalloc.c:50-51 | so do several bytes, as a header or a client's write |
| `HeapMemory.LiveBlockOpen` | kmalloc.c:50-51 | every live block of a sound heap meets what storing bytes through the MMU asks for |
| `HeapMemory.LiveSlabOpen` | slab.c:142-170 | so does every slab of a sound cache, footer and bitmap included |
| `HeapMemory.TakePages` | vmspace.c:39-61 | vmspace_alloc keeps the bytes of all pages backed before |
| `HeapMemory.GivePages` | vmspace.c:63-80 | vmspace_free keeps the bytes of all pages that stay backed |
| `Features.Startup.FindFeature` | kmain.c:93-98 | the first feature of the name, or NULL exactly when there is none |
| `Features.Startup.ResolveFeature` | kmain.c:100-114 | links of both lists resolved once |
| `Features.StackReaches` | kmain.c:116-121 | a feature found in progress leads back to the one that needs it |
| `Features.Push` | kmain.c:116-121 | marking before visiting keeps the record of what is in progress |
| `Features.Pop` | kmain.c:141-148 | starting a feature after its dependencies keeps the order |
| `Features.CallsOnce` | kmain.c:142-147 | started once means called once |
| `Features.CallsFollow` | kmain.c:116-149 | the order of starting carries over to the init calls |
| `Features.PostOrderJoin` | kmain.c:124-139 | one list of features after the other is visited as the two joined |
| `Features.PostOrderOne` | kmain.c:116-149 | a feature not seen comes right behind what its hard, then its soft prerequisites lead to |
| `Features.Startup.InitList` | kmain.c:123-139 | each listed dependency is started or in progress, in the depth-first order of the list; a missing hard one stops |
| `Features.Startup.InitPrerequisites` | kmain.c:123-139 | hard prerequisites are dealt with before soft ones; then every dependency is started or in progress |
| `Features.Startup.InitFeature` | kmain.c:116-149 | terminates on every graph; leaves in progress exactly what was; starts exactly the depth-first order from the feature |
| `Features.Startup.InitFeatures` | kmain.c:151-163 | completes exactly when every hard prerequisite exists and every init succeeds; each init once, and after the init of each dependency that does not lead back; the order is the depth-first one by section position, hard prerequisites before soft ones |
| `Spinlocks.StepExclusive` | locking.c:13-30 | each atomic step keeps at most one owner per lock, val set exactly when owned |
| `Spinlocks.MutualExclusion` | locking.c:13-30 | any CPUs, programs and interleaving: at most one holder |
| `Spinlocks.ReleaseAtOnce` | locking.c:23-25 | the loop in release never spins |
| `Spinlocks.DisciplinedProper` | locking.c:13-30 | ordered nesting only releases what is held |
| `Spinlocks.StepOrdered` | locking.c:13-30 | programs in lock order stay so at every step |
| `Spinlocks.WaitClimbs` | locking.c:17-18 | along a wait the rank goes up |
| `Spinlocks.NoWaitCycle` | locking.c:17-18 | no CPU waits for itself, directly or through others |
| `Spinlocks.StepWorks` | locking.c:13-30 | a step does nothing exactly when the CPU is finished or spins on a taken lock, and otherwise reduces the work left |
| `Spinlocks.ChainEnds` | locking.c:17-18 | whoever is blocked, some CPU can move |
| `Spinlocks.CanFinish` | locking.c:13-30 | from every state all programs can be brought to their end, with all locks free |
| `Spinlocks.RoundWorks` | locking.c:13-30 | a round in which every CPU gets a turn does some of the work left |
| `Spinlocks.FairFinishes` | locking.c:13-30 | every schedule that keeps giving each CPU a turn brings all programs to their end |
| `Interrupts.StepGuarded` | locking.c:14-29 | among compatible programs a step keeps every flag, and what every lock remembers, right |
| `Interrupts.OtherFlagRestored` | locking.c:24-29 | with another CPU taking the lock in between, that CPU's flag is restored |
| `Interrupts.BadRun` | locking.c:24-29 | two CPUs that save different values in one lock have a run that does not restore a flag |
| `Interrupts.RestoredIff` | locking.c:13-30 | any CPUs, any programs in lock order: every run restores every flag if and only if no lock is used by two CPUs to save different values |
| `Interrupts.OneCpuRestored` | locking.c:13-30 | on one CPU interrupts are off while a lock is held and as before when none is |
| `Interrupts.FlagLost` | locking.c:24-29 | a run of two CPUs after which one has lost its interrupts |
| `KernelLocks.MapAbove` | arch/x86/vmm.c:150-171 | map takes the table lock, and inside it only the page lock |
| `KernelLocks.ReleaseAbove` | vmspace.c:66-75 | so does the freeing loop |
| `KernelLocks.SpaceAbove` | vmspace.c:39-80 | the space lock is taken before both |
| `KernelLocks.CallAbove` | slab.c:56-117 | every call takes its locks in the order slab, space, tables, pages, and gives them back in reverse |
| `KernelLocks.CallHolds` | slab.c:56-117 | between its first and last lock operation a call holds the lock of its slab cache, address space or page allocator, outermost |
| `KernelLocks.MapNests` | arch/x86/vmm.c:150-171 | map takes the page lock only while it holds the table lock, and the table lock only while it holds none |
| `KernelLocks.CallTaken` | vmspace.c:39-80 | how often each call takes each lock: the table lock once for each page mapped or unmapped, the page lock once for each block, page or table |
| `KernelLocks.KernelSafe` | slab.c:56-117 | any CPUs running any memory calls in any interleaving: exclusive, no wait cycle, can always finish |
| `KernelLocks.KernelFinishes` | slab.c:56-117 | under any schedule that keeps giving each CPU a turn all memory calls finish |
| `KernelLocks.KernelInterrupts` | locking.c:13-30 | on one CPU any memory calls keep interrupts off under locks and restore them after |
| `KernelLocks.TwoCallersNotRestored` | vmspace.c:41-47 | alloc_pages on one CPU and vmspace_alloc on another, both with interrupts on, have a run that does not restore a flag |
| `Numbers.DigitsRead` | vsprintf.c:57-60 | the digits read back in the base, without leading zero |
| `Numbers.DigitTable` | vsprintf.c:38-41 | digit d is entry d of the lower-case table under SMALL, else of the upper-case one |
| `Numbers.FieldLooks` | vsprintf.c:34-86 | the field looks as the flags ask: sign, prefix, case of the letters, zeros and blanks where they belong, the digits of the number without needless zero |
| `Numbers.LooksUnique` | vsprintf.c:34-86 | only one string looks like that |
| `Numbers.FieldLength` | vsprintf.c:51-62 | the length is max(width, sign + prefix + max(precision, digits)) for every flag set |
| `Numbers.FieldReadsBack` | vsprintf.c:34-86 | the printed field reads back to the value, with its sign, for every width, precision and flag set |
| `Numbers.FillDigits` | vsprintf.c:56-60 | the digits, least significant first; the 36 bytes suffice |
| `Numbers.Head` | vsprintf.c:46-55 | sign, prefix, magnitude and remaining width |
| `Numbers.CopyDigits` | vsprintf.c:79-82 | precision zeros, then the buffer backwards |
| `Numbers.Lay` | vsprintf.c:61-84 | padding left, inside or right, as the flags say |
| `Numbers.Number` | vsprintf.c:34-86 | NULL exactly for a base outside 2 to 36; else the one string with '-', '+' or ' ' as SIGN, PLUS and SPACE ask, then "0x", "0X" or "0" under SPECIAL, the digits in the case SMALL asks for, blanks on the left, zeros inside under ZEROPAD or blanks on the right under LEFT up to the width |
| `Numbers.SkipAtoi` | vsprintf.c:12-19 | consumes exactly the leading digits and returns their value as a 32-bit int |
| `Numbers.DecimalRoundTrip` | vsprintf.c:12-86 | an unpadded decimal comes back through skip_atoi exactly when it is below 2^31 |

## Left out

- Kmalloc.Heap.Kmalloc: only requests of more than 28 bytes, and not the last four numbers, where adding the header wraps around.  Smaller ones go to the caches of 8, 16 and 32 bytes, whose last objects overlap their bitmap (`ClassFitsIff`, `RequestFitsIff`).  `ChooseClass`, `BlockHoldsIff` and the header lemmas are for all sizes.
- Kmalloc.Heap.TakeSmall: not for the caches of 8, 16 and 32 bytes, for the same reason.
- Kmalloc.Heap.GiveSmall: blocks of those three caches are not among the live blocks.
- Kmalloc.Heap.Kfree: blocks of those three caches are not among the live blocks.
- HeapRuns.Serve: requests of up to 28 bytes, and of more than 2GB with the header, are not made: what `kmalloc` answers to them does not hold what was asked for, or does not stay clear of a bitmap.
- Slabs.SlabCache.Alloc: when `vmspace_alloc` returns ~0 the code goes on to write through that address; the result here is `ok == false` and nothing is said about memory after it.  The same holds for Kmalloc.Heap.TakeBig and for Vmspaces.MapBookkeeping, whose `alloc_pages` result the code does not check.
- Slabs.SlabCache.Alloc and Slabs.SlabCache.Free: need a sound cache, so not one of object sizes for which `size * num + bitmap_sz` exceeds the space before the footer, since objects and bitmap overlap there (`ObjectsClearIff`).
- Slabs.Ram: slabs and heap work on a flat memory.  That stores, `vmspace_alloc` and `vmspace_free` keep it equal to the physical words behind the backed pages is proved for each of these (`HeapMemory`); the stores of the slab code are not themselves written as stores through the MMU.  Footers hold their links beside the bytes; that no object or bitmap reaches a footer is proved by addresses (`ObjectsClearIff`, `MaskFindsSlab`).
- Buddies.Buddy.Alloc: sizes that round up to less than 4KB (the code would index a negative order) or more than 256MB (it panics) are excluded.
- Buddies.Buddy.Free: block numbers are not cut to 32 bits, which would matter for regions of 2^44 bytes and more.
- PhysicalMemory.Pmm.constructor: each zone has its own storage, because the layout of `init_physical_memory` overlaps (`ZoneBitmapsOverlap`); memory below 1MB in all, where the unsigned subtraction wraps (`MidExtentIff`), is excluded.
- EarlyMemory.Distribute: memory below 1MB in all is excluded, as for the zones.
- Boot.InitPhysicalMemory: each zone has storage of its own, where the code's layout overlaps (`SharedBits`).
- Vmspaces.Vmspace.Alloc: memory above 4GB is excluded, because the physical address is stored in 32 bits; that blocks below 4GB survive the truncation is proved.
- PageTables.AddressSpace.Map: directory entries 0 and 768, which share the boot table (`arch/x86/loader.s`), and the two reserved entries are outside the model; tables are not shared between the other entries.
- PageTables.AddressSpace.MapOnePage: the same four directory entries are excluded.
- PageTables.AddressSpace.WriteMapping: the same four directory entries are excluded.
- PageTables.AddressSpace.EnsureTable: the same four directory entries are excluded.
- PageTables.AddressSpace.Unmap: the same four directory entries are excluded.
- PageTables.AddressSpace.UnmapOnePage: the same four directory entries are excluded.
- KernelStart.StartKernel: the directory and the boot ranges are taken as the boot code leaves them; multiboot parsing and `remove_range` are not part of the model.
- Spinlocks.MutualExclusion: each access is atomic and ordered as written; interrupt handlers that take locks are not modelled.
- Numbers.Number: the flag word is a record of its seven bits, and the output is a sequence of characters; widths near the limits of `int` are not cut to 32 bits.
- The sequential modules treat the lock calls as no-ops; that the lock order is safe is the subject of `KernelLocks`.
- `clone_address_space`: its test for user space multiplies an address by the table size and it skips entries that are not writable, so it has no clean contract.
- `iterate_mappings`, which starts after its argument although its header says otherwise, and `is_mapped`.
- `slab_cache_destroy`, which leaves the hint set, and the claim that a slab is made only when all are full, which is false since the search only goes forward.
- `vsprintf` itself: varargs, strings and the `*` width, which never steps past the `*`.
- The translation cache and control registers, the page fault handler, consoles, timers, interrupt tables and assembly stubs: hardware access.  `ramfs.c`, `elf.c`, string helpers and the tick counter: linear scans without state to keep.
