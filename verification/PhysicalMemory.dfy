/** The physical memory manager: three zones, each with its own buddy allocator (pmm.c).
    Pages are named here by absolute number, address / 4096. */
module PhysicalMemory {
  import opened Arith
  import opened BuddyTheory
  import opened Banks
  import Bitmaps
  import opened Buddies

  const MB1: nat := 0x10_0000
  const GB4: nat := 0x1_0000_0000

  /** PAGE_REQ_NONE, PAGE_REQ_UNDER1MB, PAGE_REQ_UNDER4GB: also the index of the zone. */
  datatype Req = NoReq | Under1MB | Under4GB

  /** free_pages chooses the zone by address. */
  function Route(addr: nat): Req {
    if addr < MB1 then Under1MB else if addr < GB4 then Under4GB else NoReq
  }

  /** Page numbers counted from another origin. */
  ghost function Shifted(s: set<nat>, base: nat): (r: set<nat>)
    ensures forall p: nat :: p in r <==> p >= base && p - base in s
  {
    set p | p in s :: base + p
  }

  lemma {:induction false} ShiftedMinus(a: set<nat>, b: set<nat>, base: nat)
    ensures Shifted(a - b, base) == Shifted(a, base) - Shifted(b, base)
    ensures b <= a ==> Shifted(b, base) <= Shifted(a, base)
  {
  }

  lemma {:induction false} ShiftedPlus(a: set<nat>, b: set<nat>, base: nat)
    ensures Shifted(a + b, base) == Shifted(a, base) + Shifted(b, base)
    ensures Shifted(a, base) !! Shifted(b, base) ==> a !! b
  {
    if Shifted(a, base) !! Shifted(b, base) {
      forall p | p in a
        ensures p !in b
      {
        assert base + p in Shifted(a, base);
      }
    }
  }

  lemma {:induction false} ShiftedRange(lo: nat, hi: nat, base: nat)
    ensures Shifted(Range(lo, hi), base) == Range(base + lo, base + hi)
  {
  }

  /** The free pages of a zone, by absolute number. */
  ghost function ZoneFree(z: Buddy): set<nat>
    reads z
  {
    Shifted(z.free, z.start / PAGE)
  }

  lemma {:induction false} NothingFree(z: Buddy)
    requires z.free == {}
    ensures ZoneFree(z) == {}
  {
  }

  /** No block of this order is wholly free in the zone. */
  ghost predicate Dry(z: Buddy, order: nat)
    reads z
  {
    forall b: Block :: b.order == order ==> !Whole(z.free, b)
  }

  class Pmm {
    const high: Buddy
    const low: Buddy
    const mid: Buddy

    /** allocators[req]. */
    function Zone(req: Req): Buddy {
      match req
      case NoReq => high
      case Under1MB => low
      case Under4GB => mid
    }

    ghost function ZoneRepr(z: Buddy): set<object> { {z, z.bank, z.bank.storage} }

    ghost function Repr(): set<object> { ZoneRepr(high) + ZoneRepr(low) + ZoneRepr(mid) }

    ghost predicate Apart() {
      ZoneRepr(high) !! ZoneRepr(low) && ZoneRepr(high) !! ZoneRepr(mid) && ZoneRepr(low) !! ZoneRepr(mid)
    }

    /** Where the zones lie. */
    ghost predicate Placed() {
      && low.start == 0 && low.size <= MB1
      && mid.start == MB1 && mid.start + mid.size <= GB4
      && high.start == GB4
    }

    ghost predicate Valid()
      reads Repr()
    {
      Apart() && Placed() && high.Valid() && low.Valid() && mid.Valid()
    }

    /** No zone has gained or lost a page. */
    twostate predicate SameZones()
      reads high, low, mid
    {
      high.free == old(high.free) && low.free == old(low.free) && mid.free == old(mid.free)
    }

    /** All free physical pages. */
    ghost function Stock(): set<nat>
      reads high, low, mid
    {
      ZoneFree(high) + ZoneFree(low) + ZoneFree(mid)
    }

    /** The zones of init_physical_memory, each with storage of its own, nothing free yet. */
    constructor (maxExtent: nat)
      requires MB1 <= maxExtent < NO_BLOCK
      ensures Valid() && fresh(Repr()) && Stock() == {}
      ensures low.size == MB1
      ensures mid.start + mid.size == if maxExtent < GB4 then maxExtent else GB4
      ensures high.size == if maxExtent > GB4 then maxExtent - GB4 else 0
    {
      hide Buddy.Valid, Shifted, Dry, Log2Roundup;
      var lowEnd := if maxExtent < MB1 then maxExtent else MB1;
      var midEnd := if maxExtent < GB4 then maxExtent else GB4;
      var highSize := if maxExtent > GB4 then maxExtent - GB4 else 0;
      var lo := NewZone(MemRange(0, lowEnd));
      var mi := NewZone(MemRange(MB1, midEnd - MB1));
      var hi := NewZone(MemRange(GB4, highSize));
      this.low, this.mid, this.high := lo, mi, hi;
      new;
      NothingFree(lo);
      NothingFree(mi);
      NothingFree(hi);
    }

    // ---------- allocation ----------

    /** addr names an in-range block of the zone, at its proper alignment. */
    ghost predicate BlockOfZone(req: Req, addr: nat, num: nat)
      requires num > 0 && Log2Roundup(num) <= MAX_ORDER
    {
      exists b: Block :: b.order == Log2Roundup(num) && Names(Zone(req), addr, b)
    }

    /** buddy_alloc on one zone, in absolute pages. */
    method AllocFrom(req: Req, num: nat) returns (addr: nat)
      requires Valid() && num > 0 && Log2Roundup(num) <= MAX_ORDER
      modifies Repr()
      ensures Valid()
      ensures addr == NO_BLOCK <==> old(Dry(Zone(req), Log2Roundup(num)))
      ensures addr == NO_BLOCK ==> Stock() == old(Stock())
      ensures addr != NO_BLOCK ==>
                && BlockOfZone(req, addr, num)
                && BlockPages(addr, num) <= old(Stock())
                && Stock() == old(Stock()) - BlockPages(addr, num)
      ensures forall r: Req :: r != req || addr == NO_BLOCK ==> Zone(r).free == old(Zone(r).free)
      ensures addr == NO_BLOCK ==> SameZones()
    {
      hide Shifted, Buddy.Valid, Dry, BlockPages;
      ZonesDisjoint();
      addr := ZoneAlloc(Zone(req), num);
    }

    lemma ZonesDisjoint()
      requires Valid()
      ensures ZoneFree(high) !! ZoneFree(low) && ZoneFree(high) !! ZoneFree(mid) && ZoneFree(low) !! ZoneFree(mid)
    {
    }

    /** The stock as a whole determines every zone. */
    twostate lemma {:induction false} SameStockSameZones()
      requires old(Valid()) && Valid() && Stock() == old(Stock())
      ensures SameZones()
    {
      hide Canonical, BitBank.Valid, Shifted;
      forall req: Req
        ensures Zone(req).free == old(Zone(req).free)
      {
        var z := Zone(req);
        forall p
          ensures p in z.free <==> p in old(z.free)
        {
          var q := z.start / PAGE + p;
          assert q in Stock() <==> q in old(Stock());
        }
      }
      assert Zone(NoReq) == high && Zone(Under1MB) == low && Zone(Under4GB) == mid;
    }

    /** alloc_pages: the high zone falls back on the zone below it. */
    method AllocPages(req: Req, num: nat) returns (addr: nat)
      requires Valid() && num > 0 && Log2Roundup(num) <= MAX_ORDER
      modifies Repr()
      ensures Valid()
      ensures addr == NO_BLOCK <==>
              old(Dry(Zone(req), Log2Roundup(num))) && (req.NoReq? ==> old(Dry(mid, Log2Roundup(num))))
      ensures addr == NO_BLOCK ==> Stock() == old(Stock()) && SameZones()
      ensures addr != NO_BLOCK ==>
                && BlockOfZone(if req.NoReq? && old(Dry(high, Log2Roundup(num))) then Under4GB else req, addr, num)
                && BlockPages(addr, num) <= old(Stock())
                && Stock() == old(Stock()) - BlockPages(addr, num)
      ensures req.NoReq? && old(Dry(high, Log2Roundup(num))) ==> high.free == old(high.free)
    {
      addr := AllocFrom(req, num);
      if addr == NO_BLOCK && req.NoReq? {
        addr := AllocFrom(Under4GB, num);
      }
    }

    /** A handed-out address is routed back to the zone that produced it. */
    lemma {:induction false} RoutesBack(req: Req, addr: nat, num: nat)
      requires Placed() && num > 0 && Log2Roundup(num) <= MAX_ORDER && BlockOfZone(req, addr, num)
      ensures Route(addr) == req
    {
      var b: Block :| b.order == Log2Roundup(num) && Names(Zone(req), addr, b);
      BlockSize(b);
    }

    /** free_pages: the block goes back to the zone its address lies in. */
    method FreePages(addr: nat, num: nat)
      requires Valid() && num > 0 && Log2Roundup(num) <= MAX_ORDER
      requires BlockOfZone(Route(addr), addr, num) && BlockPages(addr, num) !! Stock()
      modifies Repr()
      ensures Valid() && Stock() == old(Stock()) + BlockPages(addr, num)
      ensures forall r: Req :: r != Route(addr) ==> Zone(r).free == old(Zone(r).free)
    {
      hide Shifted, Buddy.Valid, BlockPages, Names;
      ZoneGive(Zone(Route(addr)), addr, num);
    }
  }

  /** buddy_alloc in absolute pages. */
  method ZoneAlloc(z: Buddy, num: nat) returns (addr: nat)
    requires z.Valid() && num > 0 && Log2Roundup(num) <= MAX_ORDER
    modifies z, z.bank, z.bank.storage
    ensures z.Valid()
    ensures addr == NO_BLOCK <==> old(Dry(z, Log2Roundup(num)))
    ensures addr == NO_BLOCK ==> z.free == old(z.free)
    ensures addr != NO_BLOCK ==>
              && (exists b: Block :: b.order == Log2Roundup(num) && Names(z, addr, b))
              && BlockPages(addr, num) <= old(ZoneFree(z))
              && ZoneFree(z) == old(ZoneFree(z)) - BlockPages(addr, num)
  {
    hide Canonical, BitBank.Valid, Shr, Shl, Pow2, Range, FloorLog2,
      Whole, Shifted, FirstFit, Pages, Names, BlockPages, Buddy.Allocated;
    Log2Pages(num);
    ghost var was := z.free;
    addr := z.Alloc(num * PAGE);
    if addr != NO_BLOCK {
      AllocatedBlock(z, was, num, addr);
      InZone(z, was, num, addr, z.BlockAt(addr, num * PAGE));
    }
  }

  /** What buddy_alloc hands out is a wholly free block of the zone. */
  lemma {:induction false} AllocatedBlock(z: Buddy, free: set<nat>, num: nat, addr: nat)
    requires num > 0 && Log2Roundup(num * PAGE) == Log2Roundup(num) + MIN_LOG2 && z.Allocated(free, num * PAGE, addr)
    ensures addr >= z.start
    ensures var b := z.BlockAt(addr, num * PAGE);
            b.order == Log2Roundup(num) && Names(z, addr, b) && Pages(b) <= free
  {
    hide Shr, Shl, Pow2, Range, FloorLog2;
    WholeIsSubset(free, z.BlockAt(addr, num * PAGE));
  }

  /** Taking a block out of a zone, in absolute pages. */
  lemma {:induction false} InZone(z: Buddy, free: set<nat>, num: nat, addr: nat, b: Block)
    requires z.start % PAGE == 0 && num > 0 && b.order == Log2Roundup(num) && Names(z, addr, b) && Pages(b) <= free
    ensures BlockPages(addr, num) <= Shifted(free, z.start / PAGE)
    ensures Shifted(free - Pages(b), z.start / PAGE) == Shifted(free, z.start / PAGE) - BlockPages(addr, num)
  {
    hide Shr, Shl, Pow2, Range, FloorLog2, Shifted;
    BlockSpan(z, addr, b);
    ShiftedMinus(free, Pages(b), z.start / PAGE);
  }

  /** buddy_free in absolute pages. */
  method ZoneGive(z: Buddy, addr: nat, num: nat)
    requires z.Valid() && num > 0 && Log2Roundup(num) <= MAX_ORDER
    requires exists b: Block :: b.order == Log2Roundup(num) && Names(z, addr, b)
    requires BlockPages(addr, num) !! ZoneFree(z)
    modifies z, z.bank, z.bank.storage
    ensures z.Valid() && ZoneFree(z) == old(ZoneFree(z)) + BlockPages(addr, num)
  {
    hide Canonical, BitBank.Valid, Shr, Shl, Pow2, Range, FloorLog2, Shifted;
    Log2Pages(num);
    ghost var b: Block :| b.order == Log2Roundup(num) && Names(z, addr, b);
    BlockSpan(z, addr, b);
    z.BlockAtAddress(addr, num * PAGE, b);
    ShiftedPlus(z.free, Pages(b), z.start / PAGE);
    z.Free(addr, num * PAGE);
  }

  /** In absolute pages a block of a zone is its span moved by the zone's first page. */
  lemma {:induction false} BlockSpan(z: Buddy, addr: nat, b: Block)
    requires z.start % PAGE == 0 && Names(z, addr, b)
    ensures addr >= z.start
    ensures Range(addr / PAGE, addr / PAGE + Pow2(b.order)) == Shifted(Pages(b), z.start / PAGE)
  {
    BlockSize(b);
  }

  /** addr is the address of block b of the zone, and b fits. */
  ghost predicate Names(z: Buddy, addr: nat, b: Block) {
    addr == z.start + PAGE * Lo(b) && Hi(b) <= z.size / PAGE
  }

  /** The pages of a block at addr that was asked for as num pages: the rounded number of them. */
  ghost function BlockPages(addr: nat, num: nat): set<nat>
    requires num > 0
  {
    Range(addr / PAGE, addr / PAGE + Pow2(Log2Roundup(num)))
  }

  lemma {:induction false} Log2Pages(num: nat)
    requires num > 0
    ensures Log2Roundup(num * PAGE) == Log2Roundup(num) + MIN_LOG2
  {
    var r := Log2Roundup(num);
    BlockOffset(Block(r, 0));
    if r > 0 { BlockOffset(Block(r - 1, 0)); } else { Pow2Constants(); }
    Log2RoundupUnique(num * PAGE, r + MIN_LOG2);
  }

  /** buddy_init over fresh storage of exactly the computed overhead. */
  method NewZone(r: MemRange) returns (z: Buddy)
    requires r.start % PAGE == 0 && r.start + r.extent < NO_BLOCK
    ensures z.Valid() && z.start == r.start && z.size == r.extent && z.free == {}
    ensures fresh(z) && fresh(z.bank) && fresh(z.bank.storage)
  {
    var overhead := CalcOverhead(r);
    var storage := new Bitmaps.byte[overhead];
    z := new Buddy(storage, r, false);
  }
}
