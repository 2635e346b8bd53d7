/** The mathematics of the buddy system: which bitmaps represent which set of free pages.

    Pages are numbered from the start of the managed region.  A block of order i and index k
    covers the pages [k * 2^i, (k+1) * 2^i).  A set of blocks is canonical for a set of free
    pages when it holds exactly the wholly free blocks whose parent is not wholly free. */
module BuddyTheory {
  import opened Arith

  /** NUM_BUDDY_BUCKETS - 1: blocks of order 0 are 4KB, blocks of order 16 are 256MB. */
  const MAX_ORDER: nat := 16

  datatype Block = Block(order: nat, index: nat)

  /** The first page of a block: index << order. */
  function Lo(b: Block): nat { Shl(b.index, b.order) }

  /** One past the last page of a block. */
  function Hi(b: Block): nat { Shl(b.index + 1, b.order) }

  ghost function Pages(b: Block): (s: set<nat>) { Range(Lo(b), Hi(b)) }

  /** DEC_ORDER. */
  function Parent(b: Block): Block { Block(b.order + 1, b.index / 2) }

  /** BUDDY: the index with its lowest bit flipped. */
  function Sibling(b: Block): Block {
    Block(b.order, if b.index % 2 == 0 then b.index + 1 else b.index - 1)
  }

  /** INC_ORDER. */
  function LeftHalf(b: Block): Block
    requires b.order > 0
  {
    Block(b.order - 1, 2 * b.index)
  }

  function RightHalf(b: Block): Block
    requires b.order > 0
  {
    Block(b.order - 1, 2 * b.index + 1)
  }

  predicate Inside(a: Block, b: Block) { Lo(b) <= Lo(a) && Hi(a) <= Hi(b) }

  predicate Apart(a: Block, b: Block) { Hi(a) <= Lo(b) || Hi(b) <= Lo(a) }

  /** Every page of the block is free. */
  ghost predicate Whole(free: set<nat>, b: Block) {
    forall p: nat :: Lo(b) <= p < Hi(b) ==> p in free
  }

  /** The block is free and could not be merged into its parent. */
  ghost predicate Head(free: set<nat>, b: Block) {
    && b.order <= MAX_ORDER
    && Whole(free, b)
    && (b.order == MAX_ORDER || !Whole(free, Parent(b)))
  }

  ghost predicate Canonical(bits: set<Block>, free: set<nat>) {
    forall b :: b in bits <==> Head(free, b)
  }

  lemma {:induction false} WholeIsSubset(free: set<nat>, b: Block)
    requires Whole(free, b)
    ensures Pages(b) <= free
  {
  }

  // ---------- geometry of blocks ----------

  lemma {:induction false} BlockSize(b: Block)
    ensures Hi(b) == Lo(b) + Pow2(b.order)
    ensures Lo(b) < Hi(b)
  {
    ShlSucc(b.index, b.order);
  }

  /** Halving: a parent is its left half followed by its right half. */
  lemma {:induction false} Halves(b: Block)
    requires b.order > 0
    ensures Lo(LeftHalf(b)) == Lo(b)
    ensures Hi(LeftHalf(b)) == Lo(RightHalf(b))
    ensures Hi(RightHalf(b)) == Hi(b)
    ensures Sibling(LeftHalf(b)) == RightHalf(b) && Sibling(RightHalf(b)) == LeftHalf(b)
    ensures Parent(LeftHalf(b)) == b && Parent(RightHalf(b)) == b
  {
  }

  /** A block and its buddy are the two halves of its parent. */
  lemma {:induction false} Siblings(b: Block)
    ensures || (b == LeftHalf(Parent(b)) && Sibling(b) == RightHalf(Parent(b)))
            || (b == RightHalf(Parent(b)) && Sibling(b) == LeftHalf(Parent(b)))
    ensures Inside(b, Parent(b)) && Inside(Sibling(b), Parent(b)) && Apart(b, Sibling(b))
    ensures Pages(Parent(b)) == Pages(b) + Pages(Sibling(b))
  {
    Halves(Parent(b));
    BlockSize(b);
    BlockSize(Sibling(b));
  }

  lemma {:induction false} SameOrder(a: Block, b: Block)
    requires a.order == b.order
    ensures a == b || Apart(a, b)
  {
    if a.index < b.index {
      ShlMonotone(a.index + 1, b.index, a.order);
    } else if b.index < a.index {
      ShlMonotone(b.index + 1, a.index, a.order);
    }
  }

  /** Two blocks are nested or disjoint; a strictly larger block that meets b contains b's parent. */
  lemma {:induction false} NestedOrApart(a: Block, b: Block)
    requires a.order <= b.order
    ensures Inside(a, b) || Apart(a, b)
    ensures a.order < b.order ==> (Inside(a, b) <==> Inside(Parent(a), b))
    ensures a.order < b.order ==> (Apart(a, b) <==> Apart(Parent(a), b))
    decreases b.order - a.order
  {
    BlockSize(a);
    BlockSize(b);
    if a.order == b.order {
      SameOrder(a, b);
    } else {
      Siblings(a);
      BlockSize(Parent(a));
      NestedOrApart(Parent(a), b);
    }
  }

  /** A block inside another is no larger, and equal when the orders agree. */
  lemma {:induction false} InsideOrder(a: Block, b: Block)
    requires Inside(a, b)
    ensures a.order <= b.order
    ensures a.order == b.order ==> a == b
  {
    BlockSize(a);
    BlockSize(b);
    if a.order > b.order {
      Pow2Monotone(b.order, a.order);
    } else if a.order == b.order {
      SameOrder(a, b);
    }
  }

  // ---------- removing and adding one block ----------

  /** Taking out a block whose bit is set clears exactly that bit. */
  lemma {:induction false} RemoveHead(bits: set<Block>, free: set<nat>, b: Block)
    requires Canonical(bits, free)
    requires b in bits
    ensures Canonical(bits - {b}, free - Pages(b))
  {
    hide Shl, Pow2, Range;
    var free' := free - Pages(b);
    forall a: Block
      ensures a in bits - {b} <==> Head(free', a)
    {
      if a.order <= MAX_ORDER {
        WholeAfterRemove(free, b, a);
        if a.order < MAX_ORDER {
          WholeAfterRemove(free, b, Parent(a));
          Siblings(a);
        }
        if Inside(a, b) {
          InsideOrder(a, b);
          if a != b {
            NestedOrApart(a, b);
          }
        }
      }
    }
  }

  lemma {:induction false} WholeAfterRemove(free: set<nat>, b: Block, x: Block)
    requires Head(free, b) && x.order <= MAX_ORDER
    ensures Whole(free - Pages(b), x) <==> Whole(free, x) && !Inside(x, b)
  {
    BlockSize(b);
    BlockSize(x);
    WholeShrinks(free, Pages(b), x);
    if x.order <= b.order {
      NestedOrApart(x, b);
      if Inside(x, b) {
        assert Lo(x) in Pages(b);
      }
    } else {
      NestedOrApart(b, x);
      if Inside(b, x) {
        NotWholeAbove(free, b, x);
      }
    }
  }

  lemma {:induction false} WholeShrinks(free: set<nat>, gone: set<nat>, x: Block)
    ensures Whole(free - gone, x) ==> Whole(free, x)
    ensures Whole(free, x) && (forall p: nat :: Lo(x) <= p < Hi(x) ==> p !in gone) ==> Whole(free - gone, x)
  {
    if Whole(free - gone, x) {
      forall p: nat | Lo(x) <= p < Hi(x)
        ensures p in free
      {
        assert p in free - gone;
      }
    }
  }

  lemma {:induction false} NotWholeAbove(free: set<nat>, b: Block, x: Block)
    requires Head(free, b) && b.order < x.order <= MAX_ORDER && Inside(b, x)
    ensures !Whole(free, x)
  {
    NestedOrApart(b, x);
    assert Inside(Parent(b), x);
  }

  /** Freeing a block whose buddy is not free sets exactly that bit. */
  lemma {:induction false} AddLone(bits: set<Block>, free: set<nat>, b: Block)
    requires Canonical(bits, free)
    requires b.order <= MAX_ORDER && Pages(b) !! free
    requires b.order == MAX_ORDER || !Whole(free, Sibling(b))
    ensures Canonical(bits + {b}, free + Pages(b))
  {
    hide Shl, Pow2, Range;
    var free' := free + Pages(b);
    forall a: Block
      ensures a in bits + {b} <==> Head(free', a)
    {
      if a.order <= MAX_ORDER {
        WholeAfterAdd(free, b, a);
        if a.order < MAX_ORDER {
          WholeAfterAdd(free, b, Parent(a));
          Siblings(a);
        }
        BlockSize(a);
        if Inside(a, b) {
          InsideOrder(a, b);
          assert Lo(a) in Pages(b);
          if a != b {
            NestedOrApart(a, b);
          } else if a.order < MAX_ORDER {
            if Inside(Parent(a), b) { InsideOrder(Parent(a), b); }
            assert Lo(Parent(a)) <= Lo(a) < Hi(Parent(a));
          }
        }
      }
    }
  }

  lemma {:induction false} WholeAfterAdd(free: set<nat>, b: Block, x: Block)
    requires b.order <= MAX_ORDER && Pages(b) !! free
    requires b.order == MAX_ORDER || !Whole(free, Sibling(b))
    requires x.order <= MAX_ORDER
    ensures Whole(free + Pages(b), x) <==> Whole(free, x) || Inside(x, b)
  {
    BlockSize(b);
    BlockSize(x);
    if x.order <= b.order {
      NestedOrApart(x, b);
    } else {
      NestedOrApart(b, x);
      if Inside(b, x) {
        Siblings(b);
        assert Inside(Sibling(b), x);
        var p: nat :| Lo(Sibling(b)) <= p < Hi(Sibling(b)) && p !in free;
        assert p !in free + Pages(b);
      }
    }
  }

  // ---------- what canonical form gives ----------

  /** The bitmaps are a function of the free pages. */
  lemma {:induction false} CanonicalUnique(bits: set<Block>, bits': set<Block>, free: set<nat>)
    requires Canonical(bits, free) && Canonical(bits', free)
    ensures bits == bits'
  {
    forall b
      ensures b in bits <==> b in bits'
    {
      assert b in bits <==> Head(free, b);
    }
  }

  /** Every wholly free block lies in a block whose bit is set. */
  lemma {:induction false} Climb(bits: set<Block>, free: set<nat>, b: Block) returns (h: Block)
    requires Canonical(bits, free)
    requires b.order <= MAX_ORDER && Whole(free, b)
    ensures h in bits && Inside(b, h) && b.order <= h.order <= MAX_ORDER
    decreases MAX_ORDER - b.order
  {
    if b.order == MAX_ORDER || !Whole(free, Parent(b)) {
      h := b;
      assert Head(free, b);
    } else {
      Siblings(b);
      h := Climb(bits, free, Parent(b));
    }
  }

  /** The block a search from some order up finds first: of the least order, and there the leftmost. */
  ghost predicate FirstFit(free: set<nat>, order: nat, h: Block) {
    && Head(free, h) && h.order >= order
    && forall g :: Head(free, g) && g.order >= order ==> h.order < g.order || (h.order == g.order && h.index <= g.index)
  }

  /** What is found depends on the free pages alone. */
  lemma {:induction false} FirstFitUnique(free: set<nat>, order: nat, g: Block, h: Block)
    requires FirstFit(free, order, g) && FirstFit(free, order, h)
    ensures g == h
  {
  }

  ghost predicate HasFit(free: set<nat>, order: nat) { exists h :: FirstFit(free, order, h) }

  ghost function TheFit(free: set<nat>, order: nat): (h: Block)
    requires HasFit(free, order)
    ensures FirstFit(free, order, h)
  {
    var h :| FirstFit(free, order, h);
    h
  }

  /** A wholly free block starts with wholly free blocks of all smaller orders. */
  lemma {:induction false} LeftPart(free: set<nat>, h: Block, order: nat) returns (b: Block)
    requires Whole(free, h) && order <= h.order
    ensures b.order == order && Whole(free, b)
    decreases h.order
  {
    b := h;
    if order < h.order {
      Halves(h);
      BlockSize(RightHalf(h));
      b := LeftPart(free, LeftHalf(h), order);
    }
  }

  /** The free pages are a function of the bitmaps: they are the pages under set bits. */
  lemma {:induction false} CanonicalCovers(bits: set<Block>, free: set<nat>, p: nat)
    requires Canonical(bits, free)
    ensures p in free <==> exists b :: b in bits && Lo(b) <= p < Hi(b)
  {
    if p in free {
      var b := Block(0, p);
      assert Lo(b) == p && Hi(b) == p + 1;
      var h := Climb(bits, free, b);
      assert Lo(h) <= p < Hi(h);
    }
    if b :| b in bits && Lo(b) <= p < Hi(b) {
      assert Head(free, b);
    }
  }

  /** Set blocks never overlap. */
  ghost predicate PairwiseApart(bits: set<Block>) {
    forall a, b :: a in bits && b in bits && a != b ==> Apart(a, b)
  }

  /** Below the top order a block and its buddy are never both set. */
  ghost predicate Coalesced(bits: set<Block>) {
    forall b :: b in bits && b.order < MAX_ORDER ==> Sibling(b) !in bits
  }

  ghost predicate Covers(bits: set<Block>, free: set<nat>) {
    forall p: nat :: p in free <==> exists b :: b in bits && Lo(b) <= p < Hi(b)
  }

  /** Canonical form is exactly what the split and merge loops aim at: disjoint blocks, fully
      merged, covering the free pages. */
  lemma {:induction false} CanonicalIff(bits: set<Block>, free: set<nat>)
    ensures Canonical(bits, free) <==>
            && (forall b :: b in bits ==> b.order <= MAX_ORDER)
            && PairwiseApart(bits) && Coalesced(bits) && Covers(bits, free)
  {
    if Canonical(bits, free) {
      CanonicalIsLocal(bits, free);
    }
    if (forall b :: b in bits ==> b.order <= MAX_ORDER) && PairwiseApart(bits) && Coalesced(bits) &&
       Covers(bits, free) {
      forall b
        ensures b in bits <==> Head(free, b)
      {
        LocalIsCanonical(bits, free, b);
      }
    }
  }

  lemma {:induction false} CanonicalIsLocal(bits: set<Block>, free: set<nat>)
    requires Canonical(bits, free)
    ensures forall b :: b in bits ==> b.order <= MAX_ORDER
    ensures PairwiseApart(bits) && Coalesced(bits) && Covers(bits, free)
  {
    forall b | b in bits
      ensures b.order <= MAX_ORDER
    {
      assert Head(free, b);
    }
    forall a, b | a in bits && b in bits && a != b
      ensures Apart(a, b)
    {
      if a.order <= b.order { HeadsApart(free, a, b); } else { HeadsApart(free, b, a); }
    }
    forall b | b in bits && b.order < MAX_ORDER
      ensures Sibling(b) !in bits
    {
      BuddyNotHead(free, b);
    }
    forall p: nat
      ensures p in free <==> exists b :: b in bits && Lo(b) <= p < Hi(b)
    {
      CanonicalCovers(bits, free, p);
    }
  }

  lemma {:induction false} BuddyNotHead(free: set<nat>, b: Block)
    requires Head(free, b) && b.order < MAX_ORDER
    ensures !Whole(free, Sibling(b))
  {
    Siblings(b);
    var p: nat :| Lo(Parent(b)) <= p < Hi(Parent(b)) && p !in free;
    assert p in Pages(Parent(b));
  }

  lemma {:induction false} HeadsApart(free: set<nat>, a: Block, b: Block)
    requires Head(free, a) && Head(free, b) && a != b && a.order <= b.order
    ensures Apart(a, b)
  {
    NestedOrApart(a, b);
    if Inside(a, b) {
      InsideOrder(a, b);
      assert Inside(Parent(a), b);
      assert Whole(free, Parent(a));
    }
  }

  /** The block, inside no larger set block, that covers x. */
  lemma {:induction false} CoverOf(bits: set<Block>, free: set<nat>, x: Block) returns (h: Block)
    requires PairwiseApart(bits) && Coalesced(bits) && Covers(bits, free)
    requires x.order <= MAX_ORDER && Whole(free, x)
    ensures h in bits && Inside(x, h) && x.order <= h.order
    decreases x.order
  {
    BlockSize(x);
    if x.order == 0 {
      assert Lo(x) in free;
      h :| h in bits && Lo(h) <= Lo(x) < Hi(h);
      BlockSize(h);
    } else {
      Halves(x);
      BlockSize(LeftHalf(x));
      BlockSize(RightHalf(x));
      var l := CoverOf(bits, free, LeftHalf(x));
      var r := CoverOf(bits, free, RightHalf(x));
      if l != LeftHalf(x) {
        LargerCoversParent(LeftHalf(x), l);
        h := l;
      } else if r != RightHalf(x) {
        LargerCoversParent(RightHalf(x), r);
        h := r;
      } else {
        assert false;
      }
    }
  }

  lemma {:induction false} LargerCoversParent(a: Block, h: Block)
    requires Inside(a, h) && a != h
    ensures Inside(Parent(a), h) && Parent(a).order <= h.order
  {
    InsideOrder(a, h);
    NestedOrApart(a, h);
  }

  lemma {:induction false} ParentNotWhole(bits: set<Block>, free: set<nat>, b: Block)
    requires PairwiseApart(bits) && Coalesced(bits) && Covers(bits, free)
    requires b in bits && b.order < MAX_ORDER
    ensures !Whole(free, Parent(b))
  {
    hide Shl, Pow2, Range, Coalesced, Covers;
    BlockSize(b);
    Siblings(b);
    if Whole(free, Parent(b)) {
      var h := CoverOf(bits, free, Parent(b));
    }
  }

  lemma {:induction false} LocalIsCanonical(bits: set<Block>, free: set<nat>, b: Block)
    requires forall c :: c in bits ==> c.order <= MAX_ORDER
    requires PairwiseApart(bits) && Coalesced(bits) && Covers(bits, free)
    ensures b in bits <==> Head(free, b)
  {
    if b in bits {
      assert Whole(free, b);
      if b.order < MAX_ORDER {
        ParentNotWhole(bits, free, b);
      }
    } else if Head(free, b) {
      var h := CoverOf(bits, free, b);
      LargerCoversParent(b, h);
    }
  }

  // ---------- one step of the split and merge loops ----------

  lemma {:induction false} EmptyCanonical()
    ensures Canonical({}, {})
  {
    var none: set<nat> := {};
    forall b: Block
      ensures !Head(none, b)
    {
      BlockSize(b);
      assert Lo(b) !in none;
    }
  }

  /** While b's pages are not free, its buddy's bit says whether the buddy is wholly free. */
  lemma {:induction false} BuddyBit(bits: set<Block>, free: set<nat>, b: Block)
    requires Canonical(bits, free) && Pages(b) !! free && b.order <= MAX_ORDER
    ensures b !in bits
    ensures b.order < MAX_ORDER ==> (Sibling(b) in bits <==> Whole(free, Sibling(b)))
  {
    BlockSize(b);
    assert Lo(b) in Pages(b);
    Siblings(b);
    assert Parent(Sibling(b)) == Parent(b);
    assert Lo(Parent(b)) <= Lo(b) < Hi(Parent(b));
  }

  /** Merging: the buddy's bit goes, and freeing b becomes freeing the parent. */
  lemma {:induction false} MergeStep(bits: set<Block>, free: set<nat>, b: Block)
    requires Canonical(bits, free) && Pages(b) !! free && b.order < MAX_ORDER && Sibling(b) in bits
    ensures Canonical(bits - {Sibling(b)}, free - Pages(Sibling(b)))
    ensures Whole(free, Sibling(b))
    ensures Pages(Parent(b)) !! free - Pages(Sibling(b))
    ensures free - Pages(Sibling(b)) + Pages(Parent(b)) == free + Pages(b)
  {
    RemoveHead(bits, free, Sibling(b));
    Siblings(b);
    assert Head(free, Sibling(b));
    assert Pages(Sibling(b)) <= free;
  }

  /** Splitting: of a block taken out of the free pages only the right half goes back. */
  lemma {:induction false} SplitStep(bits: set<Block>, all: set<nat>, b: Block)
    requires 0 < b.order <= MAX_ORDER && Whole(all, b)
    requires Canonical(bits, all - Pages(b))
    ensures Whole(all, LeftHalf(b)) && LeftHalf(b) !in bits
    ensures Canonical(bits + {RightHalf(b)}, all - Pages(LeftHalf(b)))
  {
    Halves(b);
    var l, r := LeftHalf(b), RightHalf(b);
    BlockSize(l);
    BlockSize(r);
    var rest := all - Pages(b);
    assert Lo(l) in Pages(b);
    AddLone(bits, rest, r);
    assert Pages(r) <= all;
    assert rest + Pages(r) == all - Pages(l);
  }
}
