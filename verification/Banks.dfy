/** The bookkeeping bytes of a buddy allocator: one bitmap per order, laid end to end. */
module Banks {
  import opened Arith
  import opened Bitmaps
  import opened BuddyTheory

  const MIN_LOG2: nat := 12
  const MAX_LOG2: nat := 28
  const PAGE: nat := 4096

  /** range_t: extent bytes from start on. */
  datatype MemRange = MemRange(start: nat, extent: nat)

  /** The number of whole blocks of an order in a region: size >> (12 + order). */
  function BlockCount(size: nat, order: nat): nat { Shr(size, MIN_LOG2 + order) }

  function SliceBytes(size: nat, order: nat): nat { BlockCount(size, order) / 8 + 1 }

  /** Where the slice of an order begins: the bytes of all smaller orders come first. */
  function SliceStart(size: nat, order: nat): nat {
    if order == 0 then 0 else SliceStart(size, order - 1) + SliceBytes(size, order - 1)
  }

  /** buddy_calc_overhead. */
  method CalcOverhead(r: MemRange) returns (accum: nat)
    ensures accum == SliceStart(r.extent, MAX_ORDER + 1)
  {
    accum := 0;
    for i := MIN_LOG2 to MAX_LOG2 + 1
      invariant accum == SliceStart(r.extent, i - MIN_LOG2)
    {
      accum := accum + Shr(r.extent, i) / 8 + 1;
    }
  }

  /** The slices follow one another without gap or overlap. */
  lemma {:induction false} SlicesDisjoint(size: nat, i: nat, j: nat)
    requires i < j
    ensures SliceStart(size, i) + SliceBytes(size, i) <= SliceStart(size, j)
  {
    if i + 1 < j {
      SlicesDisjoint(size, i, j - 1);
    }
  }

  /** A smaller region needs no more bookkeeping bytes. */
  lemma {:induction false} OverheadMonotone(a: nat, b: nat, order: nat)
    requires a <= b
    ensures SliceStart(a, order) <= SliceStart(b, order)
  {
    if order > 0 {
      OverheadMonotone(a, b, order - 1);
      ShrMonotone(a, b, MIN_LOG2 + order - 1);
    }
  }

  /** The blocks counted for an order are exactly those that fit in the region's pages. */
  lemma {:induction false} BlockFits(size: nat, b: Block)
    ensures b.index < BlockCount(size, b.order) <==> Hi(b) <= size / PAGE
  {
    Shift12(size);
    ShrShr(size, MIN_LOG2, b.order);
    var n, c := size / PAGE, BlockCount(size, b.order);
    ShrBounds(n, b.order);
    if b.index < c {
      ShlMonotone(b.index + 1, c, b.order);
    } else {
      ShlMonotone(c + 1, b.index + 1, b.order);
    }
  }

  // ---------- the bytes are a function of the set blocks ----------

  predicate InSlice(size: nat, b: Block) { b.order <= MAX_ORDER && b.index < 8 * SliceBytes(size, b.order) }

  /** The stored bit of a block. */
  predicate StoredBit(bytes: seq<byte>, size: nat, b: Block)
    requires |bytes| == SliceStart(size, MAX_ORDER + 1) && InSlice(size, b)
  {
    SlicesDisjoint(size, b.order, MAX_ORDER + 1);
    Bit(bytes[SliceStart(size, b.order) + b.index / 8], b.index % 8)
  }

  /** The bytes hold exactly these blocks. */
  ghost predicate Encodes(bytes: seq<byte>, size: nat, bits: set<Block>) {
    && |bytes| == SliceStart(size, MAX_ORDER + 1)
    && forall b: Block :: InSlice(size, b) ==> (b in bits <==> StoredBit(bytes, size, b))
  }

  /** Which slice a byte belongs to: the slices leave no byte over. */
  lemma {:induction false} SliceOfByte(size: nat, orders: nat, j: nat) returns (order: nat)
    requires j < SliceStart(size, orders)
    ensures order < orders && SliceStart(size, order) <= j < SliceStart(size, order) + SliceBytes(size, order)
  {
    if j >= SliceStart(size, orders - 1) {
      order := orders - 1;
    } else {
      order := SliceOfByte(size, orders - 1, j);
    }
  }

  lemma {:induction false} EncodingUnique(x: seq<byte>, y: seq<byte>, size: nat, bits: set<Block>)
    requires Encodes(x, size, bits) && Encodes(y, size, bits)
    ensures x == y
  {
    hide Bit, Shr;
    forall j | 0 <= j < |x|
      ensures x[j] == y[j]
    {
      var order := SliceOfByte(size, MAX_ORDER + 1, j);
      var first := 8 * (j - SliceStart(size, order));
      forall i: nat | i < 8
        ensures Bit(x[j], i) == Bit(y[j], i)
      {
        var b := Block(order, first + i);
        assert InSlice(size, b) && b.index / 8 == j - SliceStart(size, order) && b.index % 8 == i;
        assert StoredBit(x, size, b) == StoredBit(y, size, b);
      }
      BitsDetermineByte(x[j], y[j]);
    }
  }

  /** Two allocators of the same extent with the same free pages hold identical bytes, whatever
      their histories. */
  lemma {:induction false} BytesFromFreePages(x: seq<byte>, y: seq<byte>, size: nat, bits: set<Block>,
                                              bits': set<Block>, free: set<nat>)
    requires Encodes(x, size, bits) && Canonical(bits, free)
    requires Encodes(y, size, bits') && Canonical(bits', free)
    ensures x == y
  {
    CanonicalUnique(bits, bits', free);
    EncodingUnique(x, y, size, bits);
  }

  class BitBank {
    const size: nat
    const storage: array<byte>
    const orders: seq<Bitmap>
    /** The blocks whose bit is set. */
    ghost var bits: set<Block>

    /** The bitmaps are the slices of the storage, in order. */
    ghost predicate Laid() {
      && |orders| == MAX_ORDER + 1
      && SliceStart(size, MAX_ORDER + 1) <= storage.Length
      && forall i :: 0 <= i <= MAX_ORDER ==> SliceOf(orders[i], storage, size, i)
    }

    /** The bytes hold exactly the set blocks. */
    ghost predicate Valid()
      reads this, storage
    {
      Laid() && forall b: Block :: InSlice(size, b) ==> (b in bits <==> orders[b.order].Has(b.index))
    }

    /** The bookkeeping bytes. */
    ghost function Image(): seq<byte>
      requires Laid()
      reads storage
    {
      storage[..SliceStart(size, MAX_ORDER + 1)]
    }

    lemma {:induction false} ImageEncodes()
      requires Valid()
      ensures Encodes(Image(), size, bits)
    {
      hide Bit, Shr;
      forall b: Block | InSlice(size, b)
        ensures b in bits <==> StoredBit(Image(), size, b)
      {
        SlicesDisjoint(size, b.order, MAX_ORDER + 1);
        assert SliceOf(orders[b.order], storage, size, b.order);
      }
    }

    /** The bitmap part of buddy_init. */
    constructor (storage: array<byte>, size: nat)
      requires SliceStart(size, MAX_ORDER + 1) <= storage.Length
      modifies storage
      ensures Valid() && this.size == size && this.storage == storage && bits == {}
    {
      hide Bit, Shr;
      this.size, this.storage, this.bits := size, storage, {};
      var maps := LaySlices(storage, size);
      this.orders := maps;
      new;
      ZeroByte(0);
      forall b | InSlice(size, b)
        ensures !orders[b.order].Has(b.index)
      {
        SlicesDisjoint(size, b.order, MAX_ORDER + 1);
      }
    }

    /** The loop of buddy_init: every order gets the next slice, cleared. */
    static method LaySlices(storage: array<byte>, size: nat) returns (maps: seq<Bitmap>)
      requires SliceStart(size, MAX_ORDER + 1) <= storage.Length
      modifies storage
      ensures |maps| == MAX_ORDER + 1
      ensures forall m :: 0 <= m <= MAX_ORDER ==> SliceOf(maps[m], storage, size, m)
      ensures forall j :: 0 <= j < SliceStart(size, MAX_ORDER + 1) ==> storage[j] == 0
    {
      hide Shr;
      maps := [];
      var base := 0;
      for i := 0 to MAX_ORDER + 1
        invariant |maps| == i
        invariant base == SliceStart(size, i)
        invariant forall m :: 0 <= m < i ==> SliceOf(maps[m], storage, size, m)
        invariant base <= storage.Length && forall j :: 0 <= j < base ==> storage[j] == 0
      {
        SlicesDisjoint(size, i, MAX_ORDER + 1);
        var idx := BlockCount(size, i);
        var bm := new Bitmap(storage, base, idx);
        base := base + idx / 8 + 1;
        maps := maps + [bm];
      }
    }

    static ghost predicate SliceOf(bm: Bitmap, storage: array<byte>, size: nat, order: nat) {
      && bm.Valid()
      && bm.data == storage
      && bm.base == SliceStart(size, order)
      && bm.maxExtent == BlockCount(size, order)
    }

    /** Every bit the allocator may touch, the buddy one past the last block included, lies in the
        slice of its own order. */
    lemma {:induction false} TouchedBitsInSlice(b: Block)
      requires b.order <= MAX_ORDER && Hi(b) <= size / PAGE
      ensures InSlice(size, b) && InSlice(size, Sibling(b))
    {
      BlockFits(size, b);
    }

    /** bitmap_set on one order; the other orders keep their bits. */
    method Set(b: Block)
      requires Valid() && InSlice(size, b)
      modifies storage, this
      ensures Valid() && bits == old(bits) + {b}
    {
      hide Bit, Shr, SliceStart;
      orders[b.order].Set(b.index);
      OthersKept(b.order);
      bits := bits + {b};
    }

    /** bitmap_clear on one order. */
    method Clear(b: Block)
      requires Valid() && InSlice(size, b)
      modifies storage, this
      ensures Valid() && bits == old(bits) - {b}
    {
      hide Bit, Shr, SliceStart;
      orders[b.order].Clear(b.index);
      OthersKept(b.order);
      bits := bits - {b};
    }

    /** Writes within one slice leave the bits of the other orders alone. */
    twostate lemma {:induction false} OthersKept(order: nat)
      requires Laid() && order <= MAX_ORDER
      requires forall j :: 0 <= j < storage.Length
                 && !(SliceStart(size, order) <= j < SliceStart(size, order) + SliceBytes(size, order))
                 ==> storage[j] == old(storage[j])
      ensures forall b: Block :: InSlice(size, b) && b.order != order ==>
                (orders[b.order].Has(b.index) <==> old(orders[b.order].Has(b.index)))
    {
      hide Bit, Shr;
      forall b: Block | InSlice(size, b) && b.order != order
        ensures orders[b.order].Has(b.index) <==> old(orders[b.order].Has(b.index))
      {
        var i := b.order;
        if i < order { SlicesDisjoint(size, i, order); } else { SlicesDisjoint(size, order, i); }
        assert SliceOf(orders[i], storage, size, i);
      }
    }

    /** bitmap_isset on one order. */
    method Test(b: Block) returns (r: bool)
      requires Valid() && InSlice(size, b)
      ensures r <==> b in bits
    {
      hide Bit, Shr, SliceStart;
      r := orders[b.order].IsSet(b.index);
    }

    /** bitmap_first_set on one order. */
    method First(order: nat) returns (idx: int)
      requires Valid() && order <= MAX_ORDER
      ensures idx >= -1
      ensures idx == -1 ==> forall b :: b in bits && b.order == order ==> BlockCount(size, order) < b.index
      ensures idx != -1 ==> Block(order, idx) in bits
      ensures idx != -1 ==> forall b :: b in bits && b.order == order ==> idx <= b.index
    {
      hide Bit, Shr, SliceStart;
      idx := orders[order].FirstSet();
      if idx == -1 {
        forall b | b in bits && b.order == order && b.index <= BlockCount(size, order)
          ensures orders[order].Has(b.index)
        {
          assert InSlice(size, b);
        }
      } else {
        assert InSlice(size, Block(order, idx));
        forall b | b in bits && b.order == order && b.index <= idx
          ensures orders[order].Has(b.index)
        {
          assert InSlice(size, b);
        }
      }
    }
  }
}
