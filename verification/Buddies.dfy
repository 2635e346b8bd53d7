/** The buddy allocator: seventeen bitmaps over one stretch of bytes (buddy.c). */
module Buddies {
  import opened Arith
  import opened Banks
  import Bitmaps
  import opened BuddyTheory

  /** ~0ULL, the failure result of buddy_alloc. */
  const NO_BLOCK: nat := 0xFFFF_FFFF_FFFF_FFFF

  /** The byte offset of a block is its index shifted by the logarithm of its size. */
  lemma {:induction false} BlockOffset(b: Block)
    ensures Shl(b.index, b.order + MIN_LOG2) == PAGE * Lo(b)
    ensures Pow2(b.order + MIN_LOG2) == PAGE * Pow2(b.order)
  {
    ShlShl(b.index, b.order, MIN_LOG2);
    Shift12(Lo(b));
    ShlShl(1, b.order, MIN_LOG2);
    ShlOne(b.order);
    ShlOne(b.order + MIN_LOG2);
    Shift12(Pow2(b.order));
  }

  /** One piece of buddy_free_range: rel and extent are the distance from the region start and the
      bytes left, b the chosen piece. */
  lemma {:induction false} PieceFacts(b: Block, rel: nat, extent: nat)
    requires b.order <= MAX_ORDER
    requires Aligned(rel, b.order + MIN_LOG2) && b.index == Shr(rel, b.order + MIN_LOG2)
    requires Pow2(b.order + MIN_LOG2) <= extent
    requires forall j :: b.order + MIN_LOG2 < j <= MAX_LOG2 ==> Pow2(j) > extent || !Aligned(rel, j)
    ensures rel == PAGE * Lo(b)
    ensures Hi(b) == Lo(b) + Pow2(b.order) && Pow2(b.order + MIN_LOG2) == PAGE * Pow2(b.order)
    ensures Largest(b, Lo(b) + extent / PAGE)
  {
    BlockOffset(b);
    BlockSize(b);
    forall c: Block | c.order <= MAX_ORDER && Lo(c) == Lo(b) && Hi(c) <= Lo(b) + extent / PAGE
      ensures c.order <= b.order
    {
      BlockOffset(c);
      BlockSize(c);
      ShrOfShl(c.index, c.order + MIN_LOG2);
      assert Aligned(rel, c.order + MIN_LOG2);
    }
  }

  // ---------- the allocator ----------

  class Buddy {
    const start: nat
    const size: nat
    const bank: BitBank
    /** The free pages, numbered from start. */
    ghost var free: set<nat>

    ghost predicate InRegion(s: set<nat>) { forall p :: p in s ==> p < size / PAGE }

    /** The region is page aligned and the bank describes it. */
    ghost predicate Shaped() {
      start % PAGE == 0 && start + size < NO_BLOCK && bank.size == size
    }

    ghost predicate Valid()
      reads this, bank, bank.storage
    {
      Shaped() && bank.Valid() && Canonical(bank.bits, free) && InRegion(free)
    }

    /** buddy_init. */
    constructor (storage: array<Bitmaps.byte>, r: MemRange, startFreed: bool)
      requires SliceStart(r.extent, MAX_ORDER + 1) <= storage.Length
      requires r.start % PAGE == 0 && r.start + r.extent < NO_BLOCK
      modifies storage
      ensures Valid() && start == r.start && size == r.extent && bank.storage == storage && fresh(bank)
      ensures free == if startFreed then Range(0, size / PAGE) else {}
    {
      var bk := new BitBank(storage, r.extent);
      this.start, this.size, this.bank, this.free := r.start, r.extent, bk, {};
      new;
      EmptyCanonical();
      if startFreed {
        ghost var pieces := FreeRange(r, 0, size / PAGE);
      }
    }

    /** Equal free pages at two moments mean equal bytes at those moments. */
    twostate lemma {:induction false} SameFreeSameBytes()
      requires old(Valid()) && Valid() && free == old(free)
      ensures bank.Image() == old(bank.Image())
    {
      bank.ImageEncodes();
      OldImageEncodes();
      BytesFromFreePages(old(bank.Image()), bank.Image(), size, old(bank.bits), bank.bits, free);
    }

    twostate lemma {:induction false} OldImageEncodes()
      requires old(Valid())
      ensures Encodes(old(bank.Image()), size, old(bank.bits))
    {
      hide Bitmaps.Bit, Shr, Canonical, Pow2;
      forall b: Block | InSlice(size, b)
        ensures b in old(bank.bits) <==> StoredBit(old(bank.Image()), size, b)
      {
        SlicesDisjoint(size, b.order, MAX_ORDER + 1);
        assert BitBank.SliceOf(bank.orders[b.order], bank.storage, size, b.order);
      }
    }

    // ---------- allocation ----------

    lemma {:induction false} HeadInRegion(b: Block)
      requires Canonical(bank.bits, free) && InRegion(free) && b in bank.bits
      ensures Whole(free, b) && b.order <= MAX_ORDER && Hi(b) <= size / PAGE
    {
      assert Head(free, b);
      BlockSize(b);
      assert Hi(b) - 1 in free;
    }

    /** The search loop of buddy_alloc: the smallest order from `order` up with a set bit. */
    method FindBlock(order: nat) returns (found: nat, idx: int)
      requires Valid() && order <= MAX_ORDER
      ensures idx == -1 ==> forall b: Block :: b.order == order ==> !Whole(free, b)
      ensures idx != -1 ==> idx >= 0 && order <= found <= MAX_ORDER && Block(found, idx) in bank.bits
      ensures idx != -1 ==> FirstFit(free, order, Block(found, idx))
    {
      hide Shr, Shl, Pow2;
      idx := -1;
      found := order;
      while found <= MAX_ORDER
        invariant order <= found <= MAX_ORDER + 1 && idx == -1
        invariant forall b :: b in bank.bits ==> !(order <= b.order < found)
      {
        idx := bank.First(found);
        if idx != -1 {
          assert forall g :: g in bank.bits <==> Head(free, g);
          return;
        }
        forall b | b in bank.bits
          ensures b.order != found
        {
          HeadInRegion(b);
          BlockFits(size, b);
        }
        found := found + 1;
      }
      forall b: Block | b.order == order
        ensures !Whole(free, b)
      {
        if Whole(free, b) {
          var h := Climb(bank.bits, free, b);
        }
      }
    }

    /** One round of the split loop: the block's bit is replaced by the bits of its halves. */
    method SplitBlock(b: Block, ghost all: set<nat>)
      requires Shaped() && bank.Valid()
      requires 0 < b.order <= MAX_ORDER && b in bank.bits && Hi(b) <= size / PAGE
      requires Whole(all, b) && Canonical(bank.bits - {b}, all - Pages(b))
      modifies bank, bank.storage
      ensures bank.Valid() && Hi(LeftHalf(b)) <= size / PAGE
      ensures LeftHalf(b) in bank.bits && Whole(all, LeftHalf(b)) && Lo(LeftHalf(b)) == Lo(b)
      ensures Canonical(bank.bits - {LeftHalf(b)}, all - Pages(LeftHalf(b)))
    {
      hide Canonical, Whole, Pages, Shr, Pow2;
      Halves(b);
      BlockSize(RightHalf(b));
      bank.TouchedBitsInSlice(b);
      bank.TouchedBitsInSlice(RightHalf(b));
      bank.TouchedBitsInSlice(LeftHalf(b));
      ghost var before := bank.bits - {b};
      bank.Clear(b);
      bank.Set(LeftHalf(b));
      bank.Set(RightHalf(b));
      SplitStep(before, all, b);
      assert bank.bits - {LeftHalf(b)} == before + {RightHalf(b)};
    }

    /** buddy_alloc.  It fails exactly when no block of the rounded order is wholly free, and
        otherwise takes exactly one such block out of the free pages: the left end of the smallest
        sufficient block, the leftmost of those. */
    method Alloc(sz: nat) returns (addr: nat)
      requires Valid()
      requires sz > 0 && MIN_LOG2 <= Log2Roundup(sz) <= MAX_LOG2
      modifies this, bank, bank.storage
      ensures Valid()
      ensures addr == NO_BLOCK <==> forall b: Block :: b.order + MIN_LOG2 == Log2Roundup(sz) ==> !Whole(old(free), b)
      ensures addr == NO_BLOCK ==> free == old(free)
      ensures addr != NO_BLOCK ==> Allocated(old(free), sz, addr) && free == old(free) - Pages(BlockAt(addr, sz))
      ensures addr != NO_BLOCK ==>
                exists h :: FirstFit(old(free), Log2Roundup(sz) - MIN_LOG2, h) && addr == start + PAGE * Lo(h)
    {
      var logSz := Log2Roundup(sz);
      var orig := logSz - MIN_LOG2;
      var order, idx := FindBlock(orig);
      if idx == -1 {
        return NO_BLOCK;
      }
      var b := Block(order, idx);
      ghost var h := b;
      RemoveHead(bank.bits, free, b);
      HeadInRegion(b);
      while b.order != orig
        invariant orig <= b.order <= MAX_ORDER
        invariant bank.Valid() && b in bank.bits && Hi(b) <= size / PAGE
        invariant Whole(free, b) && Canonical(bank.bits - {b}, free - Pages(b))
        invariant free == old(free) && Lo(b) == Lo(h)
        decreases b.order
      {
        SplitBlock(b, free);
        b := LeftHalf(b);
      }
      bank.TouchedBitsInSlice(b);
      bank.Clear(b);
      addr := start + Shl(b.index, b.order + MIN_LOG2);
      BlockAddress(b);
      BlockAtAddress(addr, sz, b);
      assert FirstFit(free, orig, h);
      free := free - Pages(b);
    }

    /** The block of the rounded size at an address. */
    function BlockAt(addr: nat, sz: nat): Block
      requires sz > 0 && addr >= start && Log2Roundup(sz) >= MIN_LOG2
    {
      Block(Log2Roundup(sz) - MIN_LOG2, Shr(addr - start, Log2Roundup(sz)))
    }

    /** addr is the address of a wholly free, in-range block of the rounded order. */
    ghost predicate Allocated(free: set<nat>, sz: nat, addr: nat)
      requires sz > 0 && Log2Roundup(sz) >= MIN_LOG2
    {
      && addr >= start
      && addr == start + PAGE * Lo(BlockAt(addr, sz))
      && Hi(BlockAt(addr, sz)) <= size / PAGE
      && Whole(free, BlockAt(addr, sz))
    }

    lemma {:induction false} BlockAddress(b: Block)
      requires Shaped() && Hi(b) <= size / PAGE
      ensures Shl(b.index, b.order + MIN_LOG2) == PAGE * Lo(b)
      ensures start + PAGE * Lo(b) < NO_BLOCK
    {
      BlockOffset(b);
      BlockSize(b);
    }

    /** An address handed out for a block leads back to that block. */
    lemma {:induction false} BlockAtAddress(addr: nat, sz: nat, b: Block)
      requires sz > 0 && Log2Roundup(sz) == b.order + MIN_LOG2
      requires addr == start + PAGE * Lo(b)
      ensures BlockAt(addr, sz) == b
    {
      BlockOffset(b);
      ShrOfShl(b.index, b.order + MIN_LOG2);
    }

    // ---------- freeing ----------

    /** The block is in range and no page of it is free already. */
    ghost predicate CanFree(addr: nat, sz: nat)
      requires sz > 0 && Log2Roundup(sz) >= MIN_LOG2
      reads this
    {
      addr >= start && Hi(BlockAt(addr, sz)) <= size / PAGE && Pages(BlockAt(addr, sz)) !! free
    }

    /** buddy_free.  Sizes below a page are ignored; otherwise exactly the freed block joins the
        free pages, merged as far as it goes. */
    method Free(addr: nat, sz: nat)
      requires Valid() && sz > 0 && Log2Roundup(sz) <= MAX_LOG2 && addr >= start
      requires Log2Roundup(sz) >= MIN_LOG2 ==> CanFree(addr, sz)
      modifies this, bank, bank.storage
      ensures Valid()
      ensures Log2Roundup(sz) < MIN_LOG2 ==> free == old(free)
      ensures Log2Roundup(sz) >= MIN_LOG2 ==> free == old(free) + Pages(BlockAt(addr, sz))
    {
      hide Shr, Shl, Pow2, Range, Canonical, Whole, Pages, Lo, Hi;
      var offs := addr - start;
      var logSz := Log2Roundup(sz);
      var idx := Shr(offs, logSz);
      if logSz < MIN_LOG2 {
        return;
      }
      var b := Block(logSz - MIN_LOG2, idx);
      PagesInRegion(b);
      ghost var target := free + Pages(b);
      var merge := true;
      while merge
        invariant b.order <= MAX_ORDER && Hi(b) <= size / PAGE
        invariant bank.Valid() && Canonical(if merge then bank.bits else bank.bits - {b}, free) && InRegion(free)
        invariant Pages(b) !! free && free + Pages(b) == target
        invariant !merge ==> b in bank.bits && (b.order == MAX_ORDER || !Whole(free, Sibling(b)))
        decreases merge, MAX_ORDER - b.order
      {
        merge := MergeBlock(b);
        if merge {
          b := Parent(b);
        }
      }
      AddLone(bank.bits - {b}, free, b);
      assert bank.bits - {b} + {b} == bank.bits;
      free := target;
    }

    /** One round of the merge loop: mark the block free, and if its buddy is free too take both
        bits out again so that the parent can be tried. */
    method MergeBlock(b: Block) returns (merge: bool)
      requires Shaped() && bank.Valid() && Canonical(bank.bits, free) && InRegion(free)
      requires b.order <= MAX_ORDER && Hi(b) <= size / PAGE && Pages(b) !! free
      modifies this, bank, bank.storage
      ensures bank.Valid() && InRegion(free)
      ensures !merge ==> free == old(free) && b in bank.bits && Canonical(bank.bits - {b}, free)
      ensures !merge ==> b.order == MAX_ORDER || !Whole(free, Sibling(b))
      ensures merge ==> b.order < MAX_ORDER && Hi(Parent(b)) <= size / PAGE
      ensures merge ==> Canonical(bank.bits, free) && Pages(Parent(b)) !! free
      ensures merge ==> free + Pages(Parent(b)) == old(free) + Pages(b)
    {
      hide Shr, Shl, Pow2, Range, Canonical, Whole;
      bank.TouchedBitsInSlice(b);
      BuddyBit(bank.bits, free, b);
      ghost var rest := bank.bits;
      bank.Set(b);
      assert bank.bits - {b} == rest;
      if b.order == MAX_ORDER {
        return false;
      }
      merge := bank.Test(Sibling(b));
      if merge {
        bank.Clear(b);
        bank.Clear(Sibling(b));
        MergeStep(rest, free, b);
        MergeInRegion(free, b);
        assert bank.bits == rest - {Sibling(b)};
        free := free - Pages(Sibling(b));
      }
    }

    lemma {:induction false} PagesInRegion(b: Block)
      requires Hi(b) <= size / PAGE
      ensures InRegion(Pages(b))
    {
    }

    /** Merging never reaches past the end of the region: the buddy is itself made of free pages. */
    lemma {:induction false} MergeInRegion(free: set<nat>, b: Block)
      requires Whole(free, Sibling(b)) && InRegion(free) && Hi(b) <= size / PAGE
      ensures Hi(Parent(b)) <= size / PAGE
    {
      Siblings(b);
      Halves(Parent(b));
      BlockSize(Sibling(b));
      assert Hi(Sibling(b)) - 1 in free;
    }

    // ---------- freeing a range ----------

    /** Whole pages in the extent, and the first one, counted from the region start. */
    ghost predicate CanFreeRange(range: MemRange, lo: nat, hi: nat)
      reads this
    {
      && RoundToPage(range.start) == start + PAGE * lo
      && hi == lo + range.extent / PAGE
      && hi <= size / PAGE
      && Range(lo, hi) !! free
    }

    /** buddy_free_range.  The start is rounded up to a page but the extent is not shortened. */
    method FreeRange(range: MemRange, ghost lo: nat, ghost hi: nat) returns (ghost pieces: seq<Block>)
      requires Valid()
      requires range.extent >= PAGE ==> CanFreeRange(range, lo, hi)
      modifies this, bank, bank.storage
      ensures Valid()
      ensures range.extent < PAGE ==> free == old(free)
      ensures range.extent >= PAGE ==> free == old(free) + Range(lo, hi) && Tiles(pieces, lo, hi)
      ensures forall p: nat :: p in free <==> p in old(free) || start / PAGE + p in FreedPages(range)
    {
      hide Shr, Shl, Pow2, TilesTo, Canonical, Largest, Range, BitBank.Valid, FreedPages;
      pieces := [];
      FreedInRegion(range, lo, hi);
      NoPieces(lo, hi);
      var at: nat, extent: nat := range.start, range.extent;
      if at % PAGE != 0 {
        if extent < PAGE {
          return;
        }
        at := at - at % PAGE + PAGE;
      }
      ghost var done := lo;
      while extent >= PAGE && at % PAGE == 0
        invariant Valid() && at % PAGE == 0
        invariant range.extent >= PAGE ==>
                    && at == start + PAGE * done && lo <= done && done + extent / PAGE == hi
                    && free == old(free) + Range(lo, done)
                    && TilesTo(pieces, lo, done, hi)
        invariant range.extent < PAGE ==> extent == range.extent && free == old(free)
        decreases extent
      {
        assert free !! Range(done, hi);
        var b := FreePiece(at, extent, done);
        RangeJoin(lo, done, Hi(b));
        NextPiece(pieces, lo, done, hi, b);
        at, extent := at + Pow2(b.order + MIN_LOG2), extent - Pow2(b.order + MIN_LOG2);
        done := Hi(b);
        pieces := pieces + [b];
      }
      assert extent / PAGE == 0;
    }

    /** The pages freed, counted from the region start. */
    lemma {:induction false} FreedInRegion(range: MemRange, lo: nat, hi: nat)
      requires start % PAGE == 0
      requires range.extent >= PAGE ==> RoundToPage(range.start) == start + PAGE * lo && hi == lo + range.extent / PAGE
      ensures range.extent >= PAGE ==> forall p: nat :: start / PAGE + p in FreedPages(range) <==> p in Range(lo, hi)
      ensures range.extent < PAGE ==> FreedPages(range) == {}
    {
    }

    /** One round of buddy_free_range: the largest aligned piece that fits is freed. */
    method FreePiece(at: nat, extent: nat, ghost page: nat) returns (b: Block)
      requires Valid() && at == start + PAGE * page && extent >= PAGE
      requires page + extent / PAGE <= size / PAGE && Range(page, page + extent / PAGE) !! free
      modifies this, bank, bank.storage
      ensures Valid() && free == old(free) + Pages(b)
      ensures b.order <= MAX_ORDER && Pow2(b.order + MIN_LOG2) == PAGE * Pow2(b.order) <= extent
      ensures Lo(b) == page && Hi(b) == page + Pow2(b.order)
      ensures Largest(b, page + extent / PAGE)
    {
      hide Shr, Shl, Pow2, Canonical, Largest, Range;
      var rel := at - start;
      var i := MAX_LOG2;
      SmallestFits(rel);
      while Pow2(i) > extent || !Aligned(rel, i)
        invariant MIN_LOG2 <= i <= MAX_LOG2
        decreases i
        invariant forall j :: i < j <= MAX_LOG2 ==> Pow2(j) > extent || !Aligned(rel, j)
      {
        i := i - 1;
      }
      b := Block(i - MIN_LOG2, Shr(rel, i));
      PieceFacts(b, rel, extent);
      Log2OfPow2(i);
      BlockAtAddress(at, Pow2(i), b);
      Free(at, Pow2(i));
    }

    lemma {:induction false} SmallestFits(rel: nat)
      requires rel % PAGE == 0
      ensures Pow2(MIN_LOG2) == PAGE && Aligned(rel, MIN_LOG2)
    {
      Pow2Constants();
      Shift12(rel);
      Shift12(rel / PAGE);
    }
  }

  /** round_to_page_size. */
  function RoundToPage(x: nat): (r: nat)
    ensures r % PAGE == 0 && x <= r < x + PAGE
  {
    if x % PAGE != 0 then (x / PAGE + 1) * PAGE else x
  }

  /** A page that lies wholly inside a range of bytes. */
  predicate PageInside(range: MemRange, p: nat) {
    range.start <= PAGE * p && PAGE * (p + 1) <= range.start + range.extent
  }

  /** The pages, by absolute number, that buddy_free_range frees. */
  ghost function FreedPages(range: MemRange): set<nat> {
    Range(RoundToPage(range.start) / PAGE, RoundToPage(range.start) / PAGE + range.extent / PAGE)
  }

  /** buddy_free_range frees exactly the whole pages of the range if and only if the bytes skipped
      to reach the first page boundary are covered by the left-over bytes at the end (or there is no
      page to free at all).  Aligned ranges always qualify. */
  lemma {:induction false} FreeRangeExactIff(range: MemRange)
    ensures (forall p: nat :: p in FreedPages(range) <==> PageInside(range, p))
            <==> (range.extent < PAGE || RoundToPage(range.start) - range.start <= range.extent % PAGE)
  {
    var first, n := RoundToPage(range.start) / PAGE, range.extent / PAGE;
    if range.extent >= PAGE && RoundToPage(range.start) - range.start > range.extent % PAGE {
      assert first + n - 1 in FreedPages(range);
      assert !PageInside(range, first + n - 1);
    }
  }

  /** The smallest failing case: an unaligned range of one page's length frees the page after it. */
  lemma FreeRangeOverrun()
    ensures 1 in FreedPages(MemRange(1, PAGE)) && !PageInside(MemRange(1, PAGE), 1)
  {
  }

  /** Consecutive aligned pieces from lo to at, each the largest that still fits below hi. */
  ghost predicate TilesTo(pieces: seq<Block>, lo: nat, at: nat, hi: nat) {
    && (pieces == [] ==> lo == at)
    && (pieces != [] ==> Lo(pieces[0]) == lo && Hi(pieces[|pieces| - 1]) == at)
    && (forall j :: 0 < j < |pieces| ==> Hi(pieces[j - 1]) == Lo(pieces[j]))
    && (forall j :: 0 <= j < |pieces| ==> Largest(pieces[j], hi))
  }

  lemma {:induction false} NoPieces(lo: nat, hi: nat)
    ensures TilesTo([], lo, lo, hi)
  {
  }

  lemma {:induction false} NextPiece(pieces: seq<Block>, lo: nat, at: nat, hi: nat, b: Block)
    requires TilesTo(pieces, lo, at, hi) && Lo(b) == at && Largest(b, hi)
    ensures TilesTo(pieces + [b], lo, Hi(b), hi)
  {
    var more := pieces + [b];
    forall j | 0 < j < |more|
      ensures Hi(more[j - 1]) == Lo(more[j])
    {
      if j < |pieces| { assert Hi(pieces[j - 1]) == Lo(pieces[j]); }
    }
  }

  ghost predicate Tiles(pieces: seq<Block>, lo: nat, hi: nat) { TilesTo(pieces, lo, hi, hi) }

  /** No larger block with the same start ends by hi. */
  ghost predicate Largest(b: Block, hi: nat) {
    b.order <= MAX_ORDER && Hi(b) <= hi &&
    forall c: Block :: c.order <= MAX_ORDER && Lo(c) == Lo(b) && Hi(c) <= hi ==> c.order <= b.order
  }
}
