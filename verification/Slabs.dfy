/** The slab allocator (slab.c): 8KB slabs on a linked list, each with its objects from the start, a
    used/free bitmap below the footer, and the footer, the link to the next slab, at the end. */
module Slabs {
  import opened Arith
  import opened Bitmaps
  import opened BuddyTheory
  import opened Banks
  import opened Buddies
  import opened PhysicalMemory
  import opened PageTables
  import opened Vmspaces

  // ---------- the shape of a slab ----------

  const SLAB: nat := 0x2000
  /** Bytes before the footer. */
  const AVAIL: nat := 0x1FFC

  /** bitmap_num. */
  function Num(size: nat): nat
    requires size > 0
  {
    AVAIL / size
  }

  /** bitmap_sz. */
  function MapBytes(size: nat): nat
    requires size > 0
  {
    Num(size) / 8 + 1
  }

  /** FOOTER_FOR_PTR. */
  function FooterOf(x: nat): nat { x - x % SLAB + AVAIL }

  /** START_FOR_FOOTER. */
  function StartOf(f: nat): nat { f - f % SLAB }

  /** The address of an object. */
  function ObjAt(s: nat, size: nat, i: nat): nat { s + size * i }

  /** Where the bitmap of a slab starts. */
  function MapAt(s: nat, size: nat): nat
    requires size > 0 && MapBytes(size) <= AVAIL
  {
    s + AVAIL - MapBytes(size)
  }

  /** The objects stay clear of the bitmap. */
  predicate Fits(size: nat): (r: bool)
    ensures r ==> 0 < size <= AVAIL && MapBytes(size) <= AVAIL
  {
    0 < size <= AVAIL && size * Num(size) + MapBytes(size) <= AVAIL
  }

  /** As many objects as fit below the footer, a bitmap with a bit for each and at most eight to spare, the footer
      in the last four bytes of the slab. */
  lemma {:induction false} SlabShape(size: nat, x: nat)
    requires size > 0
    ensures size * Num(size) <= 0x1FFC < size * (Num(size) + 1)
    ensures 8 * MapBytes(size) - 8 <= Num(size) < 8 * MapBytes(size)
    ensures x <= FooterOf(x) + 3 < x + 0x2000 && (FooterOf(x) + 4) % 0x2000 == 0
  {
    NumBounds(size);
  }

  lemma {:induction false} NumBounds(size: nat)
    requires size > 0
    ensures size * Num(size) <= AVAIL < size * (Num(size) + 1)
    ensures size <= AVAIL ==> Num(size) > 0
  {
    var n := Num(size);
    assert AVAIL == size * n + AVAIL % size;
    assert size * (n + 1) == size * n + size;
  }

  lemma {:induction false} DivBack(size: nat, i: nat)
    requires size > 0
    ensures (size * i) / size == i
  {
    var q := (size * i) / size;
    assert size * i == size * q + (size * i) % size;
    if q < i { MulMonotone(size, q, i); } else if i < q { MulMonotone(size, i, q); }
  }

  /** x is a byte of object i of the slab at s. */
  predicate InObject(s: nat, size: nat, i: nat, x: nat) { ObjAt(s, size, i) <= x < ObjAt(s, size, i) + size }

  /** An address inside an object leads, by masking, to its slab's footer and start, and the object's
      index comes back from its address. */
  lemma {:induction false} MaskFindsSlab(s: nat, size: nat, i: nat, x: nat)
    requires s % SLAB == 0 && 0 < size && i < Num(size) && InObject(s, size, i, x)
    ensures FooterOf(x) == s + AVAIL && StartOf(s + AVAIL) == s
    ensures (ObjAt(s, size, i) - s) / size == i
  {
    NumBounds(size);
    MulMonotone(size, i, Num(size));
    DivBack(size, i);
  }

  /** Two objects, of the same slab or not, share no byte. */
  lemma {:induction false} ObjectsApart(s: nat, i: nat, t: nat, j: nat, size: nat, x: nat)
    requires s % SLAB == 0 && t % SLAB == 0 && size > 0 && i < Num(size) && j < Num(size)
    requires (s, i) != (t, j) && InObject(s, size, i, x)
    ensures !InObject(t, size, j, x)
  {
    if InObject(t, size, j, x) {
      MaskFindsSlab(s, size, i, x);
      MaskFindsSlab(t, size, j, x);
      if i < j { MulMonotone(size, i, j); } else { MulMonotone(size, j, i); }
    }
  }

  /** Every object byte lies below its slab's bitmap if and only if the size fits. */
  lemma {:induction false} ObjectsClearIff(s: nat, size: nat)
    requires 0 < size <= AVAIL && MapBytes(size) <= AVAIL
    ensures Fits(size) <==> forall i: nat, x: nat :: i < Num(size) && InObject(s, size, i, x) ==> x < MapAt(s, size)
  {
    NumBounds(size);
    var n := Num(size);
    if Fits(size) {
      forall i: nat, x: nat | i < n && InObject(s, size, i, x)
        ensures x < MapAt(s, size)
      {
        MulMonotone(size, i, n);
      }
    } else {
      LastObject(s, size);
    }
  }

  lemma {:induction false} LastObject(s: nat, size: nat)
    requires 0 < size <= AVAIL
    ensures Num(size) > 0 && InObject(s, size, Num(size) - 1, s + size * Num(size) - 1)
  {
    NumBounds(size);
    var n := Num(size);
    assert size * n == size * (n - 1) + size;
  }

  /** Of kmalloc's classes 8 to 512, those from 64 up fit; in the classes of 8, 16 and 32 bytes the last
      objects overlap the bitmap. */
  lemma {:induction false} ClassFitsIff(l2: nat)
    requires 3 <= l2 <= 9
    ensures Fits(Pow2(l2)) <==> l2 >= 6
  {
    assert Pow2(3) == 8 && Pow2(4) == 16 && Pow2(5) == 32 && Pow2(6) == 64;
    assert Pow2(7) == 128 && Pow2(8) == 256 && Pow2(9) == 512;
    if l2 == 3 {} else if l2 == 4 {} else if l2 == 5 {} else if l2 == 6 {} else if l2 == 7 {} else if l2 == 8 {} else {}
  }

  // ---------- the contents of slabs ----------

  /** Kernel memory as the slab allocator uses it: bytes, and link words at the footers. */
  class Ram {
    var bytes: nat -> byte
    var links: nat -> nat

    constructor (bytes: nat -> byte, links: nat -> nat)
      ensures this.bytes == bytes && this.links == links
    {
      this.bytes, this.links := bytes, links;
    }
  }

  /** The bitmap bit of object i. */
  predicate Used(m: nat -> byte, s: nat, size: nat, i: nat)
    requires Fits(size)
  {
    Bit(m(MapAt(s, size) + i / 8), i % 8)
  }

  /** The bitmap of a slab records exactly the live objects; bits past the last object stay clear. */
  ghost predicate Recorded(m: nat -> byte, s: nat, size: nat, live: set<nat>)
    requires Fits(size)
  {
    forall i: nat :: i < 8 * MapBytes(size) ==> (Used(m, s, size, i) <==> i < Num(size) && ObjAt(s, size, i) in live)
  }

  /** No bit of the slab's bitmap is set. */
  ghost predicate Unmarked(m: nat -> byte, s: nat, size: nat)
    requires Fits(size)
  {
    forall i: nat :: i < 8 * MapBytes(size) ==> !Used(m, s, size, i)
  }

  ghost predicate NoObjectOf(s: nat, size: nat, live: set<nat>)
    requires size > 0
  {
    forall i: nat :: i < Num(size) ==> ObjAt(s, size, i) !in live
  }

  /** Every object of the slab is live. */
  ghost predicate Full(s: nat, size: nat, live: set<nat>)
    requires size > 0
  {
    forall i: nat :: i < Num(size) ==> ObjAt(s, size, i) in live
  }

  /** The slab with object a, and all after it on the list, are full. */
  ghost predicate FullFrom(slabs: seq<nat>, size: nat, live: set<nat>, a: nat)
    requires size > 0
  {
    exists k :: 0 <= k < |slabs| && ObjectOf(slabs[k], size, a) && FullBetween(slabs, k, |slabs|, size, live)
  }

  ghost predicate FullBetween(slabs: seq<nat>, lo: nat, hi: nat, size: nat, live: set<nat>)
    requires size > 0 && hi <= |slabs|
  {
    forall t :: lo <= t < hi ==> Full(slabs[t], size, live)
  }

  /** a is the address of an object of the slab at s. */
  ghost predicate ObjectOf(s: nat, size: nat, a: nat)
    requires size > 0
  {
    exists i: nat :: i < Num(size) && a == ObjAt(s, size, i)
  }

  ghost predicate ObjectIn(slabs: seq<nat>, size: nat, a: nat)
    requires size > 0
  {
    exists k :: 0 <= k < |slabs| && ObjectOf(slabs[k], size, a)
  }

  /** The next link of the k-th slab of a list. */
  function NextLink(slabs: seq<nat>, k: nat): nat
    requires k < |slabs|
  {
    if k + 1 < |slabs| then slabs[k + 1] + AVAIL else 0
  }

  /** The links run through the slabs in order and end with NULL. */
  ghost predicate Listed(links: nat -> nat, first: nat, slabs: seq<nat>) {
    && first == (if slabs == [] then 0 else slabs[0] + AVAIL)
    && forall k :: 0 <= k < |slabs| ==> links(slabs[k] + AVAIL) == NextLink(slabs, k)
  }

  ghost predicate Distinct(slabs: seq<nat>) {
    && (forall i, j :: 0 <= i < j < |slabs| ==> slabs[i] != slabs[j])
    && (forall k :: 0 <= k < |slabs| ==> slabs[k] % SLAB == 0 && slabs[k] > 0)
  }

  /** The whole cache, as values: an acyclic list of slabs whose bitmaps hold exactly the live objects,
      and a hint that is NULL or an unused object of a slab on the list. */
  ghost predicate Consistent(m: nat -> byte, links: nat -> nat, size: nat, first: nat, empty: nat, slabs: seq<nat>,
                             live: set<nat>)
  {
    && Fits(size)
    && Distinct(slabs) && Listed(links, first, slabs)
    && (forall k :: 0 <= k < |slabs| ==> Recorded(m, slabs[k], size, live))
    && (forall a :: a in live ==> ObjectIn(slabs, size, a))
    && (empty != 0 ==> ObjectIn(slabs, size, empty) && empty !in live)
  }

  lemma {:induction false} ConsistentFacts(m: nat -> byte, links: nat -> nat, size: nat, first: nat, empty: nat,
                                           slabs: seq<nat>, live: set<nat>)
    requires Consistent(m, links, size, first, empty, slabs, live)
    ensures Fits(size) && Distinct(slabs) && forall a :: a in live ==> ObjectIn(slabs, size, a)
  {
  }

  lemma {:induction false} SlabStarts(slabs: seq<nat>)
    requires Distinct(slabs)
    ensures forall k :: 0 <= k < |slabs| ==> slabs[k] % SLAB == 0
  {
  }

  /** A bitmap byte lies in its own slab's window. */
  lemma {:induction false} MapByteWindow(t: nat, size: nat, j: nat)
    requires Fits(size) && t % SLAB == 0 && j < 8 * MapBytes(size)
    ensures FooterOf(MapAt(t, size) + j / 8) == t + AVAIL
  {
    hide Num;
    var y := MapAt(t, size) + j / 8;
    assert t <= y < t + AVAIL;
  }

  /** A byte of one object is no bitmap byte of any slab. */
  lemma {:induction false} ObjectMissesMaps(s: nat, size: nat, i: nat, x: nat, t: nat, j: nat)
    requires Fits(size) && s % SLAB == 0 && t % SLAB == 0 && i < Num(size) && InObject(s, size, i, x)
    requires j < 8 * MapBytes(size)
    ensures x != MapAt(t, size) + j / 8
  {
    hide Num, InObject, FooterOf, Fits;
    MaskFindsSlab(s, size, i, x);
    MapByteWindow(t, size, j);
    ObjectsClearIff(s, size);
  }

  /** Whatever a client writes inside an object, the cache stays as it is. */
  lemma {:induction false} ObjectWriteKeeps(m: nat -> byte, m': nat -> byte, links: nat -> nat, size: nat,
                                            first: nat, empty: nat, slabs: seq<nat>, live: set<nat>, k: nat, i: nat)
    requires Consistent(m, links, size, first, empty, slabs, live) && k < |slabs| && i < Num(size)
    requires forall x: nat :: !InObject(slabs[k], size, i, x) ==> m'(x) == m(x)
    ensures Consistent(m', links, size, first, empty, slabs, live)
  {
    hide Bit, Fits, Num, MapBytes, MapAt, InObject, ObjAt, Listed, Distinct;
    SlabStarts(slabs);
    forall t, j: nat | 0 <= t < |slabs| && j < 8 * MapBytes(size)
      ensures Used(m', slabs[t], size, j) == Used(m, slabs[t], size, j)
    {
      var x := MapAt(slabs[t], size) + j / 8;
      if InObject(slabs[k], size, i, x) {
        ObjectMissesMaps(slabs[k], size, i, x, slabs[t], j);
      }
    }
  }

  // ---------- bitmap updates ----------

  /** Memory after storing one byte. */
  function Poke(m: nat -> byte, x: nat, b: byte): nat -> byte {
    (a: nat) => if a == x then b else m(a)
  }

  /** Memory after copying some bytes to an address. */
  function Copied(m: nat -> byte, at: nat, bs: seq<byte>): nat -> byte {
    (a: nat) => if at <= a < at + |bs| then bs[a - at] else m(a)
  }

  /** Memory holds some bytes at an address. */
  ghost predicate Holds(m: nat -> byte, at: nat, bs: seq<byte>) {
    forall a: nat :: at <= a < at + |bs| ==> m(a) == bs[a - at]
  }

  /** Memory after mark_used (or mark_unused) of object i. */
  function Marked(m: nat -> byte, s: nat, size: nat, i: nat, used: bool): nat -> byte
    requires Fits(size)
  {
    var x := MapAt(s, size) + i / 8;
    Poke(m, x, if used then WithBit(m(x), i % 8) else WithoutBit(m(x), i % 8))
  }

  /** Marking one object changes one bit, in no other slab and at no other object. */
  lemma {:induction false} MarkedBits(m: nat -> byte, s: nat, size: nat, i: nat, used: bool, t: nat, j: nat)
    requires Fits(size) && s % SLAB == 0 && t % SLAB == 0 && i < 8 * MapBytes(size) && j < 8 * MapBytes(size)
    ensures Used(Marked(m, s, size, i, used), t, size, j) <==> if s == t && i == j then used else Used(m, t, size, j)
  {
    hide Bit, WithBit, WithoutBit, Num, MapBytes, Fits, FooterOf;
    MapByteWindow(s, size, i);
    MapByteWindow(t, size, j);
    var x := MapAt(s, size) + i / 8;
    SetBit(m(x), i % 8, j % 8);
    ClearBit(m(x), i % 8, j % 8);
  }

  /** mark_used on an unused object and mark_unused on a live one keep the bitmaps right. */
  lemma {:induction false} MarkedRecorded(m: nat -> byte, slabs: seq<nat>, size: nat, live: set<nat>, k: nat,
                                          i: nat, used: bool)
    requires Fits(size) && Distinct(slabs) && k < |slabs| && i < Num(size)
    requires forall t :: 0 <= t < |slabs| ==> Recorded(m, slabs[t], size, live)
    ensures var a := ObjAt(slabs[k], size, i);
            forall t :: 0 <= t < |slabs| ==>
              Recorded(Marked(m, slabs[k], size, i, used), slabs[t], size, if used then live + {a} else live - {a})
  {
    hide Fits, Num, Used, Marked, ObjAt;
    var a := ObjAt(slabs[k], size, i);
    var live' := if used then live + {a} else live - {a};
    forall t | 0 <= t < |slabs|
      ensures Recorded(Marked(m, slabs[k], size, i, used), slabs[t], size, live')
    {
      forall j: nat | j < 8 * MapBytes(size)
        ensures Used(Marked(m, slabs[k], size, i, used), slabs[t], size, j) <==>
                  j < Num(size) && ObjAt(slabs[t], size, j) in live'
      {
        MarkedBits(m, slabs[k], size, i, used, slabs[t], j);
        if j < Num(size) && (t != k || j != i) {
          DifferentObjects(slabs[k], i, slabs[t], j, size);
        }
      }
    }
  }

  lemma {:induction false} DifferentObjects(s: nat, i: nat, t: nat, j: nat, size: nat)
    requires s % SLAB == 0 && t % SLAB == 0 && size > 0 && i < Num(size) && j < Num(size) && (s, i) != (t, j)
    ensures ObjAt(s, size, i) != ObjAt(t, size, j)
  {
    ObjectsApart(s, i, t, j, size, ObjAt(s, size, i));
  }

  /** lsb_clear: the position of the lowest clear bit of a byte that is not full. */
  method LsbClear(b: byte) returns (i: nat)
    requires b != 0xFF
    ensures i < 8 && !Bit(b, i)
    ensures forall j: nat :: j < i ==> Bit(b, j)
  {
    hide Bit, ShiftedRight;
    FullByte(b);
    ghost var k: nat :| k < 8 && !Bit(b, k);
    i := 0;
    var rest := b;
    ShiftBits(b, 0);
    LowBitOf(b);
    while rest & 1 == 1
      invariant i <= k && rest == ShiftedRight(b, i)
      invariant rest & 1 == 1 <==> Bit(b, i)
      invariant forall j: nat :: j < i ==> Bit(b, j)
      decreases 8 - i
    {
      ShiftNext(b, i);
      ShiftBits(b, i + 1);
      i := i + 1;
      rest := rest >> 1;
      LowBitOf(rest);
    }
  }

  lemma LowBitOf(b: byte)
    ensures b & 1 == 1 <==> b & 1 != 0
  {
  }

  // ---------- steps of the cache, as values ----------

  /** Marking an object, with a hint that fits the new live set. */
  lemma {:induction false} MarkKeeps(m: nat -> byte, links: nat -> nat, size: nat, first: nat, empty: nat,
                                     slabs: seq<nat>, live: set<nat>, k: nat, i: nat, used: bool, empty': nat)
    requires Consistent(m, links, size, first, empty, slabs, live) && k < |slabs| && i < Num(size)
    requires var a := ObjAt(slabs[k], size, i);
             empty' != 0 ==> ObjectIn(slabs, size, empty') && empty' !in if used then live + {a} else live - {a}
    ensures var a := ObjAt(slabs[k], size, i);
            Consistent(Marked(m, slabs[k], size, i, used), links, size, first, empty', slabs,
                       if used then live + {a} else live - {a})
  {
    hide Recorded, Marked, Num, Fits, ObjAt, Listed;
    MarkedRecorded(m, slabs, size, live, k, i, used);
    assert ObjectOf(slabs[k], size, ObjAt(slabs[k], size, i));
  }

  // ---------- what a step leaves alone ----------

  /** Only bytes of the given slabs change, and no byte of the given objects. */
  ghost predicate Local(m: nat -> byte, m': nat -> byte, slabs: seq<nat>, size: nat, objects: set<nat>) {
    && (forall x: nat :: StartOf(x) !in slabs ==> m'(x) == m(x))
    && (forall a, x: nat :: a in objects && a <= x < a + size ==> m'(x) == m(x))
  }

  /** Only links of the given slabs change. */
  ghost predicate LinksLocal(links: nat -> nat, links': nat -> nat, slabs: seq<nat>) {
    forall x: nat :: StartOf(x) !in slabs ==> links'(x) == links(x)
  }

  lemma {:induction false} LocalJoin(m: nat -> byte, m1: nat -> byte, m2: nat -> byte, slabs: seq<nat>,
                                     more: seq<nat>, size: nat, objects: set<nat>)
    requires Local(m, m1, slabs, size, objects) && Local(m1, m2, more, size, objects)
    requires forall s :: s in slabs ==> s in more
    ensures Local(m, m2, more, size, objects)
  {
    hide StartOf;
  }

  lemma {:induction false} WindowOf(t: nat, size: nat, j: nat)
    requires Fits(size) && t % SLAB == 0 && j < 8 * MapBytes(size)
    ensures StartOf(MapAt(t, size) + j / 8) == t
  {
    hide Num;
    var y := MapAt(t, size) + j / 8;
    assert t <= y < t + AVAIL;
  }

  /** Marking touches one bitmap byte. */
  lemma {:induction false} MarkLocal(m: nat -> byte, size: nat, slabs: seq<nat>, k: nat, i: nat, used: bool,
                                     objects: set<nat>)
    requires Fits(size) && Distinct(slabs) && k < |slabs| && i < Num(size)
    requires forall a :: a in objects ==> ObjectIn(slabs, size, a)
    ensures Local(m, Marked(m, slabs[k], size, i, used), slabs, size, objects)
  {
    hide Bit, WithBit, WithoutBit, Num, MapBytes, Fits, MapAt, StartOf, InObject, ObjAt;
    SlabStarts(slabs);
    var s, m' := slabs[k], Marked(m, slabs[k], size, i, used);
    MapCovers(size);
    WindowOf(s, size, i);
    forall a, x: nat | a in objects && a <= x < a + size
      ensures m'(x) == m(x)
    {
      var t :| 0 <= t < |slabs| && ObjectOf(slabs[t], size, a);
      var j: nat :| j < Num(size) && a == ObjAt(slabs[t], size, j);
      BytesOfObject(slabs[t], size, j, x);
      ObjectMissesMaps(slabs[t], size, j, x, s, i);
    }
  }

  lemma {:induction false} BytesOfObject(s: nat, size: nat, i: nat, x: nat)
    requires size > 0 && ObjAt(s, size, i) <= x < ObjAt(s, size, i) + size
    ensures InObject(s, size, i, x)
  {
  }

  /** A byte of an object lies in its slab. */
  lemma {:induction false} ObjectWindow(s: nat, size: nat, i: nat, x: nat)
    requires s % SLAB == 0 && 0 < size && i < Num(size) && InObject(s, size, i, x)
    ensures StartOf(x) == s
  {
    MaskFindsSlab(s, size, i, x);
  }

  lemma {:induction false} NoLinks(links: nat -> nat, slabs: seq<nat>)
    ensures LinksLocal(links, links, slabs)
  {
  }

  lemma {:induction false} LinksJoin(links: nat -> nat, links1: nat -> nat, links2: nat -> nat, slabs: seq<nat>)
    requires LinksLocal(links, links1, slabs) && LinksLocal(links1, links2, slabs)
    ensures LinksLocal(links, links2, slabs)
  {
    hide StartOf;
  }

  lemma {:induction false} ListedObject(slabs: seq<nat>, size: nat, k: nat, i: nat)
    requires size > 0 && k < |slabs| && i < Num(size)
    ensures ObjectIn(slabs, size, ObjAt(slabs[k], size, i))
  {
    assert ObjectOf(slabs[k], size, ObjAt(slabs[k], size, i));
  }

  lemma {:induction false} RelinkLocal(links: nat -> nat, s: nat, next: nat, slabs: seq<nat>)
    requires s % SLAB == 0 && s in slabs
    ensures LinksLocal(links, Relinked(links, s + AVAIL, next), slabs)
  {
    hide StartOf;
    InWindow(s);
  }

  /** Clearing the bitmap of a slab touches that slab alone. */
  lemma {:induction false} ZeroLocal(m: nat -> byte, size: nat, slabs: seq<nat>, s: nat, objects: set<nat>)
    requires Fits(size) && Distinct(slabs) && s % SLAB == 0 && s !in slabs
    requires forall a :: a in objects ==> ObjectIn(slabs, size, a)
    ensures Local(m, Zeroed(m, s, size), [s] + slabs, size, objects)
  {
    hide Num, Fits, StartOf, InObject, ObjAt;
    SlabStarts(slabs);
    InWindow(s);
    var m' := Zeroed(m, s, size);
    forall a, x: nat | a in objects && a <= x < a + size
      ensures m'(x) == m(x)
    {
      var t :| 0 <= t < |slabs| && ObjectOf(slabs[t], size, a);
      var j: nat :| j < Num(size) && a == ObjAt(slabs[t], size, j);
      BytesOfObject(slabs[t], size, j, x);
      ObjectWindow(slabs[t], size, j, x);
    }
  }

  lemma {:induction false} InWindow(s: nat)
    requires s % SLAB == 0
    ensures forall x: nat :: s <= x < s + SLAB ==> StartOf(x) == s
    ensures StartOf(s + AVAIL) == s
  {
  }

  /** Writing inside one object touches its slab and no other object. */
  lemma {:induction false} WriteLocal(m: nat -> byte, m': nat -> byte, size: nat, slabs: seq<nat>, k: nat, i: nat,
                                      objects: set<nat>)
    requires Fits(size) && Distinct(slabs) && k < |slabs| && i < Num(size)
    requires forall x: nat :: !InObject(slabs[k], size, i, x) ==> m'(x) == m(x)
    requires forall a :: a in objects ==> ObjectIn(slabs, size, a)
    ensures Local(m, m', slabs, size, objects - {ObjAt(slabs[k], size, i)})
  {
    hide Num, Fits, StartOf, InObject, ObjAt;
    SlabStarts(slabs);
    forall x: nat | StartOf(x) !in slabs
      ensures m'(x) == m(x)
    {
      if InObject(slabs[k], size, i, x) { ObjectWindow(slabs[k], size, i, x); }
    }
    forall a, x: nat | a in objects && a != ObjAt(slabs[k], size, i) && a <= x < a + size
      ensures m'(x) == m(x)
    {
      var t :| 0 <= t < |slabs| && ObjectOf(slabs[t], size, a);
      var j: nat :| j < Num(size) && a == ObjAt(slabs[t], size, j);
      BytesOfObject(slabs[t], size, j, x);
      ObjectsApart(slabs[t], j, slabs[k], i, size, x);
    }
  }

  lemma {:induction false} RecordedLocal(m: nat -> byte, m': nat -> byte, s: nat, size: nat, live: set<nat>)
    requires Fits(size) && s % SLAB == 0 && Recorded(m, s, size, live)
    requires forall x: nat :: StartOf(x) == s ==> m'(x) == m(x)
    ensures Recorded(m', s, size, live)
  {
    hide Bit, Fits, Num, MapBytes, MapAt, ObjAt, StartOf;
    forall j: nat | j < 8 * MapBytes(size)
      ensures Used(m', s, size, j) == Used(m, s, size, j)
    {
      WindowOf(s, size, j);
    }
  }

  lemma {:induction false} ListedLocal(links: nat -> nat, links': nat -> nat, first: nat, slabs: seq<nat>)
    requires Distinct(slabs) && Listed(links, first, slabs)
    requires forall x: nat :: StartOf(x) in slabs ==> links'(x) == links(x)
    ensures Listed(links', first, slabs)
  {
    hide StartOf, NextLink;
    SlabStarts(slabs);
    forall k | 0 <= k < |slabs|
      ensures links'(slabs[k] + AVAIL) == links(slabs[k] + AVAIL)
    {
      InWindow(slabs[k]);
    }
  }

  /** A cache depends only on the bytes and links of its own slabs. */
  lemma {:induction false} ConsistentLocal(m: nat -> byte, m': nat -> byte, links: nat -> nat, links': nat -> nat,
                                           size: nat, first: nat, empty: nat, slabs: seq<nat>, live: set<nat>)
    requires Consistent(m, links, size, first, empty, slabs, live)
    requires forall x: nat :: StartOf(x) in slabs ==> m'(x) == m(x) && links'(x) == links(x)
    ensures Consistent(m', links', size, first, empty, slabs, live)
  {
    hide Fits, StartOf, ObjectIn, Listed, Distinct, Recorded;
    SlabStarts(slabs);
    ListedLocal(links, links', first, slabs);
    forall k | 0 <= k < |slabs|
      ensures Recorded(m', slabs[k], size, live)
    {
      RecordedLocal(m, m', slabs[k], size, live);
    }
  }

  /** Memory after create has cleared a slab's bitmap. */
  function Zeroed(m: nat -> byte, s: nat, size: nat): nat -> byte
    requires Fits(size)
  {
    (a: nat) => if MapAt(s, size) <= a < s + AVAIL then 0 else m(a)
  }

  function Relinked(links: nat -> nat, f: nat, next: nat): nat -> nat {
    (a: nat) => if a == f then next else links(a)
  }

  lemma {:induction false} ZeroedBits(m: nat -> byte, s: nat, size: nat, t: nat, j: nat)
    requires Fits(size) && s % SLAB == 0 && t % SLAB == 0 && j < 8 * MapBytes(size)
    ensures Used(Zeroed(m, s, size), t, size, j) <==> s != t && Used(m, t, size, j)
  {
    hide Bit, Num, Fits, FooterOf;
    MapByteWindow(t, size, j);
    ZeroByte(0);
    if s != t { WindowsApart(s, t, MapAt(t, size) + j / 8); }
  }

  lemma {:induction false} WindowsApart(s: nat, t: nat, y: nat)
    requires s % SLAB == 0 && t % SLAB == 0 && s != t && FooterOf(y) == t + AVAIL
    ensures !(s <= y < s + SLAB)
  {
  }

  lemma {:induction false} FullNone(slabs: seq<nat>, k: nat, size: nat, live: set<nat>)
    requires size > 0 && k <= |slabs|
    ensures FullBetween(slabs, k, k, size, live)
  {
  }

  lemma {:induction false} FullMore(slabs: seq<nat>, k: nat, t: nat, size: nat, live: set<nat>)
    requires size > 0 && t < |slabs| && FullBetween(slabs, k, t, size, live) && Full(slabs[t], size, live)
    ensures FullBetween(slabs, k, t + 1, size, live)
  {
    hide Full;
  }

  lemma {:induction false} LinkAt(links: nat -> nat, first: nat, slabs: seq<nat>, k: nat)
    requires Listed(links, first, slabs) && k < |slabs|
    ensures links(slabs[k] + AVAIL) == if k + 1 < |slabs| then slabs[k + 1] + AVAIL else 0
  {
  }

  lemma {:induction false} ListPush(links: nat -> nat, first: nat, slabs: seq<nat>, s: nat)
    requires Distinct(slabs) && Listed(links, first, slabs) && s !in slabs && s % SLAB == 0 && s > 0
    ensures Distinct([s] + slabs) && Listed(Relinked(links, s + AVAIL, first), s + AVAIL, [s] + slabs)
  {
    var all, l := [s] + slabs, Relinked(links, s + AVAIL, first);
    forall k | 0 <= k < |all|
      ensures l(all[k] + AVAIL) == NextLink(all, k)
    {
      if k > 0 { assert all[k] == slabs[k - 1] && slabs[k - 1] != s; }
    }
  }

  lemma {:induction false} ListDrop(links: nat -> nat, first: nat, slabs: seq<nat>, first': nat, links': nat -> nat)
    requires slabs != [] && Distinct(slabs) && Listed(links, first, slabs)
    requires |slabs| == 1 ==> first' == 0 && links' == links
    requires |slabs| > 1 ==> first' == first && links' == Relinked(links, slabs[|slabs| - 2] + AVAIL, 0)
    ensures Distinct(slabs[..|slabs| - 1]) && Listed(links', first', slabs[..|slabs| - 1])
  {
    var less := slabs[..|slabs| - 1];
    forall k | 0 <= k < |less|
      ensures links'(less[k] + AVAIL) == NextLink(less, k)
    {
      assert less[k] == slabs[k];
      if k + 1 < |less| { assert less[k + 1] == slabs[k + 1] && slabs[k] != slabs[|slabs| - 2]; }
    }
  }

  /** Clearing a slab that is not on the list, as create does, leaves the cache as it is. */
  lemma {:induction false} ClearKeeps(m: nat -> byte, links: nat -> nat, size: nat, first: nat, empty: nat,
                                      slabs: seq<nat>, live: set<nat>, s: nat)
    requires Consistent(m, links, size, first, empty, slabs, live) && s % SLAB == 0 && s !in slabs
    ensures Consistent(Zeroed(m, s, size), Relinked(links, s + AVAIL, 0), size, first, empty, slabs, live)
    ensures Unmarked(Zeroed(m, s, size), s, size)
  {
    hide Consistent, StartOf, Used, Num, Fits;
    ConsistentFacts(m, links, size, first, empty, slabs, live);
    InWindow(s);
    ConsistentLocal(m, Zeroed(m, s, size), links, Relinked(links, s + AVAIL, 0), size, first, empty, slabs, live);
    forall j: nat | j < 8 * MapBytes(size)
      ensures !Used(Zeroed(m, s, size), s, size, j)
    {
      ZeroedBits(m, s, size, s, j);
    }
  }

  /** A cleared slab goes in front of the list. */
  lemma {:induction false} CreateKeeps(m: nat -> byte, links: nat -> nat, size: nat, first: nat, slabs: seq<nat>,
                                       live: set<nat>, s: nat)
    requires Consistent(m, links, size, first, 0, slabs, live) && Unmarked(m, s, size)
    requires s % SLAB == 0 && s > 0 && s !in slabs
    ensures Consistent(m, Relinked(links, s + AVAIL, first), size, s + AVAIL, 0, [s] + slabs, live)
  {
    hide Num, Fits, ObjAt, Used, Listed, Relinked;
    ListPush(links, first, slabs, s);
    var all := [s] + slabs;
    forall k | 0 <= k < |all|
      ensures Recorded(m, all[k], size, live)
    {
      if k == 0 {
        forall j: nat | j < Num(size)
          ensures ObjAt(s, size, j) !in live
        {
          ForeignObject(slabs, size, s, j);
        }
      } else {
        assert all[k] == slabs[k - 1];
      }
    }
    forall a | a in live
      ensures ObjectIn(all, size, a)
    {
      var k :| 0 <= k < |slabs| && ObjectOf(slabs[k], size, a);
      assert all[k + 1] == slabs[k];
    }
  }

  lemma {:induction false} ForeignObject(slabs: seq<nat>, size: nat, s: nat, j: nat)
    requires Distinct(slabs) && s % SLAB == 0 && s !in slabs && size > 0 && j < Num(size)
    ensures !ObjectIn(slabs, size, ObjAt(s, size, j))
  {
    if ObjectIn(slabs, size, ObjAt(s, size, j)) {
      var k :| 0 <= k < |slabs| && ObjectOf(slabs[k], size, ObjAt(s, size, j));
      var i: nat :| i < Num(size) && ObjAt(s, size, j) == ObjAt(slabs[k], size, i);
      DifferentObjects(s, j, slabs[k], i, size);
    }
  }

  lemma {:induction false} NotThere(slabs: seq<nat>, size: nat, live: set<nat>)
    requires slabs != [] && size > 0
    requires NoObjectOf(slabs[|slabs| - 1], size, live)
    ensures forall a :: a in live ==> !ObjectOf(slabs[|slabs| - 1], size, a)
  {
  }

  /** The last slab, holding no live object, leaves the list. */
  lemma {:induction false} DropKeeps(m: nat -> byte, links: nat -> nat, size: nat, first: nat, empty: nat,
                                     slabs: seq<nat>, live: set<nat>, first': nat, links': nat -> nat, empty': nat)
    requires slabs != [] && Consistent(m, links, size, first, empty, slabs, live)
    requires NoObjectOf(slabs[|slabs| - 1], size, live)
    requires |slabs| == 1 ==> first' == 0 && links' == links
    requires |slabs| > 1 ==> first' == first && links' == Relinked(links, slabs[|slabs| - 2] + AVAIL, 0)
    requires empty' == 0 || (empty' == empty && !ObjectOf(slabs[|slabs| - 1], size, empty))
    ensures Consistent(m, links', size, first', empty', slabs[..|slabs| - 1], live)
  {
    hide Num, Fits, ObjAt, Used, Recorded, Listed, Relinked, Distinct;
    ListDrop(links, first, slabs, first', links');
    var less := slabs[..|slabs| - 1];
    NotThere(slabs, size, live);
    forall a | a in live
      ensures ObjectIn(less, size, a)
    {
      var k :| 0 <= k < |slabs| && ObjectOf(slabs[k], size, a);
      assert k < |less| && less[k] == slabs[k];
    }
    if empty' != 0 {
      var k :| 0 <= k < |slabs| && ObjectOf(slabs[k], size, empty');
      assert less[k] == slabs[k];
    }
  }

  /** The hint slab_cache_free leaves: the lower of the freed object and the old hint. */
  function HintAfter(empty: nat, obj: nat): (e: nat)
    ensures e <= obj && (e == obj || e == empty) && (empty != 0 ==> 0 < e <= empty || obj == 0)
    ensures empty == 0 ==> e == obj
  {
    if empty == 0 || empty > obj then obj else empty
  }

  // ---------- the code ----------

  /** A slab is a block of the address space whose two pages are among these. */
  ghost predicate Held(vms: Vmspace, s: nat, pages: set<nat>) {
    vms.BlockInSpace(s, 2) && s / PAGE in pages && s / PAGE + 1 in pages
  }

  /** The two pages of a slab, not among the pages before, are now. */
  ghost predicate SlabAdded(before: set<nat>, after: set<nat>, s: nat) {
    after == before + {s / PAGE, s / PAGE + 1} && s / PAGE !in before && s / PAGE + 1 !in before
  }

  lemma {:induction false} FreshBacked(s: MemState, q: nat)
    requires Isolated(s) && Span(q, 2) == {q, q + 1} && Span(q, 2) <= s.vfree
    ensures q !in s.backed && q + 1 !in s.backed
  {
  }

  /** All slabs are blocks of the address space, with their pages among these. */
  ghost predicate AllHeld(vms: Vmspace, slabs: seq<nat>, pages: set<nat>) {
    forall k :: 0 <= k < |slabs| ==> Held(vms, slabs[k], pages)
  }

  lemma {:induction false} HeldLess(vms: Vmspace, slabs: seq<nat>, pages: set<nat>, s: nat)
    requires AllHeld(vms, slabs, pages) && Distinct(slabs) && s % SLAB == 0 && s !in slabs
    ensures AllHeld(vms, slabs, pages - {s / PAGE, s / PAGE + 1})
  {
    hide Vmspace.BlockInSpace, Distinct;
    SlabStarts(slabs);
    PairsApart(slabs, s);
  }

  /** The MMU lets the kernel write the n bytes from an address on, and user code reach none of them. */
  ghost predicate WritableFrom(tables: AddressSpace, at: nat, n: nat)
    reads tables.words
  {
    && tables.Shaped()
    && forall x: word :: at <= x < at + n ==> tables.Walk(x, true).Some? && tables.Pte(x / 4096) / 4 % 2 == 0
  }

  /** What a cache is made from: an address space on slab boundaries, an object size that fits, and the
      initial contents of an object or none. */
  ghost predicate Suits(vms: Vmspace, ram: Ram, size: nat, init: seq<byte>)
    reads vms.Repr()
  {
    && vms.Valid() && vms.allocator.start % SLAB == 0 && vms.allocator.start > 0 && ram !in vms.Repr()
    && Fits(size) && (init == [] || |init| == size)
  }

  class SlabCache {
    const size: nat
    /** The initial contents of objects, or nothing when init is NULL. */
    const init: seq<byte>
    const vms: Vmspace
    const ram: Ram
    var first: nat
    var empty: nat
    ghost var slabs: seq<nat>
    ghost var live: set<nat>

    ghost predicate Valid()
      reads this, ram, vms.Repr()
    {
      && this !in vms.Repr() && ram !in vms.Repr()
      && vms.Valid() && vms.allocator.start % SLAB == 0 && vms.allocator.start > 0
      && (init == [] || |init| == size)
      && Cached()
      && AllHeld(vms, slabs, vms.writable)
    }

    /** The cache's own data. */
    ghost predicate Cached()
      reads this, ram
    {
      Consistent(ram.bytes, ram.links, size, first, empty, slabs, live)
    }

    /** slab_cache_create.  The cache is sound if its objects fit a slab beside their bitmap. */
    constructor (vms: Vmspace, ram: Ram, size: nat, init: seq<byte>)
      ensures this.vms == vms && this.ram == ram && this.size == size && this.init == init
      ensures first == 0 && empty == 0 && live == {} && slabs == []
      ensures Suits(vms, ram, size, init) ==> Valid()
    {
      this.vms, this.ram, this.size, this.init := vms, ram, size, init;
      this.first, this.empty, this.slabs, this.live := 0, 0, [], {};
    }

    /** find_empty_obj: the first unused object of a slab, or NULL. */
    method FindEmptyObj(f: nat, ghost s: nat) returns (obj: nat)
      requires Fits(size) && s % SLAB == 0 && s > 0 && f == s + AVAIL
      ensures obj == 0 <==> forall i: nat :: i < Num(size) ==> Used(ram.bytes, s, size, i)
      ensures obj != 0 ==> exists i: nat :: i < Num(size) && obj == ObjAt(s, size, i) && !Used(ram.bytes, s, size, i)
                                            && forall j: nat :: j < i ==> Used(ram.bytes, s, size, j)
    {
      hide Bit, Fits, Num, Used, MapBytes, MapAt, StartOf, ObjAt;
      MapCovers(size);
      for i := 0 to MapBytes(size)
        invariant forall j: nat :: j < 8 * i ==> Used(ram.bytes, s, size, j)
      {
        ByteOfMap(ram.bytes, s, size, i);
        var b := ram.bytes(f - MapBytes(size) + i);
        FullByte(b);
        if b != 0xFF {
          var bit := LsbClear(b);
          var idx := i * 8 + bit;
          assert !Used(ram.bytes, s, size, idx);
          ObjectAddress(s, size, idx);
          obj := if idx >= Num(size) then 0 else StartOf(f) + size * idx;
          return;
        }
      }
      obj := 0;
    }

    /** all_unused. */
    method AllUnused(f: nat, ghost s: nat) returns (r: bool)
      requires Fits(size) && s % SLAB == 0 && f == s + AVAIL
      ensures r <==> Unmarked(ram.bytes, s, size)
    {
      hide Bit, Fits, Num, Used, MapBytes, MapAt;
      for i := 0 to MapBytes(size)
        invariant forall j: nat :: j < 8 * i ==> !Used(ram.bytes, s, size, j)
      {
        ByteOfMap(ram.bytes, s, size, i);
        var b := ram.bytes(f - MapBytes(size) + i);
        ZeroByte(b);
        if b != 0 {
          ghost var bit: nat :| bit < 8 && Bit(b, bit);
          assert Used(ram.bytes, s, size, 8 * i + bit);
          return false;
        }
      }
      r := true;
    }

    /** mark_used and mark_unused. */
    method Mark(f: nat, obj: nat, used: bool, ghost s: nat, ghost i: nat)
      requires Fits(size) && s % SLAB == 0 && f == s + AVAIL && i < Num(size) && obj == ObjAt(s, size, i)
      modifies ram`bytes
      ensures ram.bytes == old(Marked(ram.bytes, s, size, i, used))
    {
      hide Bit, WithBit, WithoutBit, Num;
      MaskFindsSlab(s, size, i, obj);
      var idx := (obj - StartOf(f)) / size;
      var x := f - MapBytes(size) + idx / 8;
      var b := ram.bytes(x);
      ram.bytes := Poke(ram.bytes, x, if used then WithBit(b, idx % 8) else WithoutBit(b, idx % 8));
    }

    /** The bitmaps and the list are right for some live set. */
    ghost predicate Searchable(alive: set<nat>)
      reads this, ram
    {
      && Fits(size) && Distinct(slabs) && Listed(ram.links, first, slabs)
      && forall k :: 0 <= k < |slabs| ==> Recorded(ram.bytes, slabs[k], size, alive)
    }

    /** An object find_empty_obj returns is an unused object of the list. */
    method FindIn(f: nat, ghost k: nat, ghost alive: set<nat>) returns (obj: nat)
      requires Searchable(alive) && k < |slabs| && f == slabs[k] + AVAIL
      ensures obj != 0 ==> ObjectIn(slabs, size, obj) && obj !in alive
      ensures obj == 0 ==> Full(slabs[k], size, alive)
    {
      hide Used, Num, Fits, ObjAt;
      obj := FindEmptyObj(f, slabs[k]);
      MapCovers(size);
      assert Recorded(ram.bytes, slabs[k], size, alive);
      if obj != 0 {
        ghost var i: nat :| i < Num(size) && obj == ObjAt(slabs[k], size, i) && !Used(ram.bytes, slabs[k], size, i);
        assert ObjectOf(slabs[k], size, obj);
      }
    }

    /** The search loop of slab_cache_alloc: forward from one slab to the end of the list. */
    method SearchFrom(start: nat, ghost k: nat, ghost alive: set<nat>) returns (obj: nat)
      requires Searchable(alive) && k < |slabs| && start == slabs[k] + AVAIL
      ensures obj != 0 ==> ObjectIn(slabs, size, obj) && obj !in alive
      ensures obj == 0 ==> FullBetween(slabs, k, |slabs|, size, alive)
    {
      hide Recorded, Full, Fits, Distinct, Listed, ObjectIn, FullBetween, NextLink;
      FullNone(slabs, k, size, alive);
      var f := start;
      ghost var t := k;
      obj := 0;
      while f != 0
        invariant k <= t <= |slabs| && f == (if t < |slabs| then slabs[t] + AVAIL else 0) && obj == 0
        invariant FullBetween(slabs, k, t, size, alive)
        decreases |slabs| - t
      {
        obj := FindIn(f, t, alive);
        if obj != 0 {
          break;
        }
        FullMore(slabs, k, t, size, alive);
        LinkAt(ram.links, first, slabs, t);
        f := ram.links(f);
        t := t + 1;
      }
    }

    /** slab_cache_alloc when there is a hint. */
    method AllocHinted() returns (obj: nat)
      requires Cached() && empty != 0
      modifies this, ram`bytes
      ensures Cached() && obj == old(empty) && obj !in old(live) && live == old(live) + {obj}
      ensures slabs == old(slabs) && ObjectIn(slabs, size, obj)
      ensures Fits(size) && (empty == 0 ==> FullFrom(slabs, size, live, obj))
      ensures Local(old(ram.bytes), ram.bytes, slabs, size, old(live))
    {
      hide Used, Num, Fits, ObjAt, Recorded, Marked, FooterOf, InObject, Local;
      obj := empty;
      ghost var k :| 0 <= k < |slabs| && ObjectOf(slabs[k], size, obj);
      ghost var i: nat :| i < Num(size) && obj == ObjAt(slabs[k], size, i);
      InOwnObject(slabs[k], size, i);
      MaskFindsSlab(slabs[k], size, i, obj);
      var f := FooterOf(obj);
      MarkKeeps(ram.bytes, ram.links, size, first, empty, slabs, live, k, i, true, 0);
      MarkLocal(ram.bytes, size, slabs, k, i, true, live);
      Mark(f, obj, true, slabs[k], i);
      ghost var m := old(ram.bytes);
      live := live + {obj};
      var e := SearchFrom(f, k, live);
      MarkKeeps(m, ram.links, size, first, old(empty), slabs, old(live), k, i, true, e);
      empty := e;
    }

    /** slab_cache_alloc on the new slab with footer f: it goes to the front, and its first object is taken. */
    method AllocFresh(f: nat, ghost s: nat) returns (obj: nat)
      requires Cached() && empty == 0 && s % SLAB == 0 && s > 0 && s !in slabs && f == s + AVAIL
      requires Fits(size) && Unmarked(ram.bytes, s, size)
      modifies this, ram
      ensures Cached() && obj == s && obj !in old(live) && live == old(live) + {obj}
      ensures slabs == [s] + old(slabs) && ObjectIn(slabs, size, obj)
      ensures Local(old(ram.bytes), ram.bytes, slabs, size, old(live)) && LinksLocal(old(ram.links), ram.links, slabs)
    {
      hide Used, Num, Fits, ObjAt, Recorded, Marked, Relinked, Listed, Local, LinksLocal, ObjectIn, Unmarked;
      var rest := first;
      FirstObject(s, size);
      ForeignObject(slabs, size, s, 0);
      CreateKeeps(ram.bytes, ram.links, size, first, slabs, live, s);
      RelinkLocal(ram.links, s, rest, [s] + slabs);
      first := f;
      ram.links := Relinked(ram.links, first, rest);
      slabs := [s] + slabs;
      obj := StartOf(first);
      ghost var m, before := ram.bytes, live;
      MarkKeeps(m, ram.links, size, first, 0, slabs, live, 0, 0, true, 0);
      MarkLocal(m, size, slabs, 0, 0, true, live);
      Mark(first, obj, true, s, 0);
      live := live + {obj};
      var e := FindIn(first, 0, live);
      MarkKeeps(m, ram.links, size, first, 0, slabs, before, 0, 0, true, e);
      empty := e;
      ListedObject(slabs, size, 0, 0);
    }

    /** The memcpy at the end of slab_cache_alloc. */
    method InitObject(obj: nat)
      requires Cached() && ObjectIn(slabs, size, obj) && (init == [] || |init| == size)
      modifies ram`bytes
      ensures Cached() && Holds(ram.bytes, obj, init)
      ensures Local(old(ram.bytes), ram.bytes, slabs, size, live - {obj})
    {
      hide Consistent, Num, Fits, StartOf;
      SizeOk();
      if init != [] {
        ghost var k :| 0 <= k < |slabs| && ObjectOf(slabs[k], size, obj);
        ghost var i: nat :| i < Num(size) && obj == ObjAt(slabs[k], size, i);
        var m := ram.bytes;
        ram.bytes := Copied(m, obj, init);
        ObjectWriteKeeps(m, ram.bytes, ram.links, size, first, empty, slabs, live, k, i);
        WriteLocal(m, ram.bytes, size, slabs, k, i, live);
      }
    }

    lemma {:induction false} SizeOk()
      requires Cached()
      ensures Fits(size) && Distinct(slabs)
      ensures forall a :: a in live ==> ObjectIn(slabs, size, a)
    {
    }

    /** A client writes to an object it holds: neither the cache nor any other object is disturbed. */
    method ClientWrite(obj: nat, x: nat, bs: seq<byte>)
      requires Cached() && obj in live && obj <= x && x + |bs| <= obj + size
      modifies ram`bytes
      ensures Cached() && ram.bytes == old(Copied(ram.bytes, x, bs))
      ensures Local(old(ram.bytes), ram.bytes, slabs, size, live - {obj})
    {
      hide Consistent, Num, Fits, StartOf;
      SizeOk();
      ghost var k :| 0 <= k < |slabs| && ObjectOf(slabs[k], size, obj);
      ghost var i: nat :| i < Num(size) && obj == ObjAt(slabs[k], size, i);
      var m := ram.bytes;
      ram.bytes := Copied(m, x, bs);
      ObjectWriteKeeps(m, ram.bytes, ram.links, size, first, empty, slabs, live, k, i);
      WriteLocal(m, ram.bytes, size, slabs, k, i, live);
    }

    /** slab_cache_alloc.  The object was not live and is; a new slab is made only without a hint, which
        after a hinted allocation means that no slab from the object's own onward has room; ok is false
        only when the address space or the physical memory is used up. */
    method Alloc() returns (ok: bool, obj: nat)
      requires Valid()
      modifies this, ram, vms.Repr()
      ensures Fits(size) && (ok && empty == 0 && slabs == old(slabs) ==> FullFrom(slabs, size, live, obj))
      ensures !ok <==> old(empty) == 0 && (old(Dry(vms.allocator, 1)) || old(Dry(vms.pmm.mid, 1)))
      ensures !ok ==> empty == 0 && (Dry(vms.allocator, 1) || Dry(vms.pmm.mid, 1))
      ensures ok ==> Valid() && obj !in old(live) && live == old(live) + {obj} && ObjectIn(slabs, size, obj)
      ensures ok ==> if old(empty) != 0 then obj == old(empty) && slabs == old(slabs) else slabs == [obj] + old(slabs)
      ensures ok ==> Holds(ram.bytes, obj, init)
      ensures ok ==> Local(old(ram.bytes), ram.bytes, slabs, size, old(live))
      ensures ok ==> LinksLocal(old(ram.links), ram.links, slabs)
      ensures ok ==> if old(empty) != 0 then vms.writable == old(vms.writable)
                     else SlabAdded(old(vms.writable), vms.writable, obj)
    {
      hide Consistent, Vmspace.Valid, Dry, ObjectIn, Holds, Held,
        AllHeld, FullFrom, Fits, Local, LinksLocal, SlabAdded, Distinct;
      SizeOk();
      ghost var before := live;
      if empty != 0 {
        obj := AllocHinted();
        ok := true;
      } else {
        ok, obj := AllocNew();
        if !ok {
          return;
        }
      }
      NoLinks(ram.links, slabs);
      ghost var m := ram.bytes;
      InitObject(obj);
      assert live - {obj} == before;
      LocalJoin(old(ram.bytes), m, ram.bytes, slabs, slabs, size, before);
    }

    /** slab_cache_alloc when there is no hint: the first object of a new slab. */
    method AllocNew() returns (ok: bool, obj: nat)
      requires Valid() && empty == 0
      modifies this, ram, vms.Repr()
      ensures !ok <==> old(Dry(vms.allocator, 1)) || old(Dry(vms.pmm.mid, 1))
      ensures !ok ==> empty == 0 && (Dry(vms.allocator, 1) || Dry(vms.pmm.mid, 1))
      ensures ok ==> Valid() && obj !in old(live) && live == old(live) + {obj} && ObjectIn(slabs, size, obj)
      ensures ok ==> slabs == [obj] + old(slabs)
      ensures ok ==> Local(old(ram.bytes), ram.bytes, slabs, size, old(live))
      ensures ok ==> LinksLocal(old(ram.links), ram.links, slabs)
      ensures ok ==> SlabAdded(old(vms.writable), vms.writable, obj)
    {
      hide Consistent, Vmspace.Valid, Dry, ObjectIn, Held, Local, LinksLocal, SlabAdded, WritableFrom;
      var f;
      ghost var s;
      ok, f, s := Create();
      if !ok {
        return ok, 0;
      }
      ghost var m, links, before := ram.bytes, ram.links, live;
      obj := AllocFresh(f, s);
      LocalJoin(old(ram.bytes), m, ram.bytes, slabs, slabs, size, before);
      LinksJoin(old(ram.links), links, ram.links, slabs);
    }

    /** create: a new slab, none of the cache's own, with a clear bitmap and no next slab. */
    method Create() returns (ok: bool, f: nat, ghost s: nat)
      requires Valid()
      modifies ram, vms.Repr()
      ensures Fits(size)
      ensures !ok <==> old(Dry(vms.allocator, 1)) || old(Dry(vms.pmm.mid, 1))
      ensures !ok ==> Dry(vms.allocator, 1) || Dry(vms.pmm.mid, 1)
      ensures ok ==> Valid() && s % SLAB == 0 && s > 0 && s !in slabs && Held(vms, s, vms.writable) && f == s + AVAIL
      ensures ok ==> SlabAdded(old(vms.writable), vms.writable, s) && WritableFrom(vms.tables, s, 0x2000)
      ensures ok ==> ram.bytes == old(Zeroed(ram.bytes, s, size)) && ram.links == old(Relinked(ram.links, s + AVAIL, 0))
      ensures ok ==> Unmarked(ram.bytes, s, size)
      ensures ok ==> Local(old(ram.bytes), ram.bytes, [s] + slabs, size, live)
      ensures ok ==> LinksLocal(old(ram.links), ram.links, [s] + slabs)
    {
      hide Consistent, Vmspace.Valid, Dry, Held, Local, LinksLocal,
        SlabAdded, Fits, Zeroed, Relinked, Unmarked, Distinct, AllHeld, WritableFrom;
      SizeOk();
      f := 0;
      var addr;
      ok, addr := NewSlab();
      s := addr;
      if !ok {
        return;
      }
      FirstObject(addr, size);
      ClearKeeps(ram.bytes, ram.links, size, first, empty, slabs, live, addr);
      ZeroLocal(ram.bytes, size, slabs, addr, live);
      RelinkLocal(ram.links, addr, 0, [addr] + slabs);
      f := FooterOf(addr);
      ram.links := Relinked(ram.links, f, 0);
      ram.bytes := Zeroed(ram.bytes, addr, size);
    }

    /** The allocation part of create. */
    method NewSlab() returns (ok: bool, s: nat)
      requires Valid()
      modifies vms.Repr()
      ensures !ok <==> old(Dry(vms.allocator, 1)) || old(Dry(vms.pmm.mid, 1))
      ensures !ok ==> Dry(vms.allocator, 1) || Dry(vms.pmm.mid, 1)
      ensures ok ==> Valid() && s % SLAB == 0 && s > 0 && s !in slabs && Held(vms, s, vms.writable)
      ensures ok ==> SlabAdded(old(vms.writable), vms.writable, s) && WritableFrom(vms.tables, s, 0x2000)
    {
      hide Consistent, Vmspace.Valid, Dry, Vmspace.BlockInSpace, WritableFrom;
      ok, s := TakeSlab(vms);
    }

    /** A cache whose fields, slab bytes, links and pages are as before is as good as before. */
    twostate lemma {:induction false} StillValid()
      requires old(Valid()) && vms.Valid()
      requires first == old(first) && empty == old(empty) && slabs == old(slabs) && live == old(live)
      requires forall x: nat :: StartOf(x) in slabs ==>
                 ram.bytes(x) == old(ram.bytes)(x) && ram.links(x) == old(ram.links)(x)
      requires forall k :: 0 <= k < |slabs| ==> slabs[k] / PAGE in vms.writable && slabs[k] / PAGE + 1 in vms.writable
      ensures Valid()
    {
      hide Consistent, Vmspace.Valid, StartOf, Vmspace.BlockInSpace;
      ConsistentLocal(old(ram.bytes), ram.bytes, old(ram.links), ram.links, size, first, empty, slabs, live);
    }

    /** After a write inside a live object the cache is as good as before. */
    twostate lemma {:induction false} WrittenValid(obj: nat)
      requires old(Valid()) && vms.Valid() && vms.writable == old(vms.writable) && obj in live
      requires first == old(first) && empty == old(empty) && slabs == old(slabs) && live == old(live)
      requires ram.links == old(ram.links)
      requires forall x: nat :: !(obj <= x < obj + size) ==> ram.bytes(x) == old(ram.bytes)(x)
      ensures Valid() && Local(old(ram.bytes), ram.bytes, slabs, size, live - {obj})
    {
      hide Consistent, Vmspace.Valid, StartOf, Num, Fits;
      ConsistentFacts(old(ram.bytes), old(ram.links), size, first, empty, slabs, live);
      var k :| 0 <= k < |slabs| && ObjectOf(slabs[k], size, obj);
      var i: nat :| i < Num(size) && obj == ObjAt(slabs[k], size, i);
      ObjectWriteKeeps(old(ram.bytes), ram.bytes, ram.links, size, first, empty, slabs, live, k, i);
      WriteLocal(old(ram.bytes), ram.bytes, size, slabs, k, i, live);
    }

    // ---------- freeing ----------

    /** The bitmap and hint part of slab_cache_free. */
    method Release(obj: nat) returns (f: nat, ghost k: nat)
      requires Cached() && obj in live
      modifies this, ram`bytes
      ensures Cached() && live == old(live) - {obj} && slabs == old(slabs)
      ensures k < |slabs| && f == slabs[k] + AVAIL && Fits(size) && ObjectOf(slabs[k], size, obj)
      ensures empty == old(HintAfter(empty, obj))
      ensures Local(old(ram.bytes), ram.bytes, slabs, size, live)
    {
      hide Used, Num, Fits, ObjAt, Recorded, Marked, FooterOf, InObject, Listed, Local;
      assert ObjectIn(slabs, size, obj);
      k :| 0 <= k < |slabs| && ObjectOf(slabs[k], size, obj);
      ghost var i: nat :| i < Num(size) && obj == ObjAt(slabs[k], size, i);
      InOwnObject(slabs[k], size, i);
      MaskFindsSlab(slabs[k], size, i, obj);
      f := FooterOf(obj);
      var e := HintAfter(empty, obj);
      MarkKeeps(ram.bytes, ram.links, size, first, empty, slabs, live, k, i, false, e);
      MarkLocal(ram.bytes, size, slabs, k, i, false, live - {obj});
      Mark(f, obj, false, slabs[k], i);
      live := live - {obj};
      empty := e;
    }

    /** The list part of slab_cache_free: the last slab, all unused, is taken off, and the hint with it. */
    method Unlink(f: nat)
      requires Cached() && slabs != [] && f == slabs[|slabs| - 1] + AVAIL
      requires Unmarked(ram.bytes, slabs[|slabs| - 1], size)
      modifies this, ram`links
      ensures Cached() && slabs == old(slabs)[..|old(slabs)| - 1] && live == old(live)
      ensures empty == (if FooterOf(old(empty)) == f then 0 else old(empty)) && Fits(size)
      ensures LinksLocal(old(ram.links), ram.links, old(slabs))
      ensures forall a :: a in live ==> !ObjectOf(old(slabs)[|old(slabs)| - 1], size, a)
    {
      hide Consistent, Num, Fits, ObjAt, Relinked, MapBytes, FooterOf, ObjectOf, Unmarked, NoObjectOf, LinksLocal;
      ghost var n := |slabs|;
      LastLink(n - 1);
      LastRecorded();
      NoneLive(ram.bytes, slabs[n - 1], size, live);
      NotThere(slabs, size, live);
      NoLinks(ram.links, slabs);
      ghost var links, was, hint := ram.links, first, empty;
      if first == f {
        first := 0;
      } else {
        var f2 := Predecessor(f);
        LastLink(n - 2);
        RelinkLocal(ram.links, slabs[n - 2], 0, slabs);
        ram.links := Relinked(ram.links, f2, 0);
      }
      if FooterOf(empty) == f {
        empty := 0;
      } else {
        NotOf(slabs[n - 1], size, empty);
      }
      DropKeeps(ram.bytes, links, size, was, hint, slabs, live, first, ram.links, empty);
      slabs := slabs[..n - 1];
    }

    /** The walk to the slab before the last. */
    method Predecessor(f: nat) returns (f2: nat)
      requires Cached() && slabs != [] && f == slabs[|slabs| - 1] + AVAIL && first != f
      ensures |slabs| > 1 && f2 == slabs[|slabs| - 2] + AVAIL
    {
      hide Recorded, ObjectIn, Fits;
      f2 := first;
      ghost var t := 0;
      while ram.links(f2) != f
        invariant t < |slabs| - 1 && f2 == slabs[t] + AVAIL
        decreases |slabs| - t
      {
        f2 := ram.links(f2);
        t := t + 1;
      }
    }

    lemma {:induction false} LastRecorded()
      requires Cached() && slabs != []
      ensures Fits(size) && Recorded(ram.bytes, slabs[|slabs| - 1], size, live)
      ensures first == slabs[|slabs| - 1] + AVAIL <==> |slabs| == 1
    {
      hide Recorded, ObjectIn, Fits;
    }

    /** slab_cache_free.  Exactly the object stops being live; the last slab is given back to the address
        space exactly when the object was its last live one, and a hint into it is dropped. */
    method Free(obj: nat)
      requires Valid() && obj in live
      modifies this, ram, vms.Repr()
      ensures Valid() && live == old(live) - {obj} && old(slabs) != [] && Fits(size)
      ensures var s := old(slabs)[|old(slabs)| - 1];
              var e := HintAfter(old(empty), obj);
              if ObjectOf(s, size, obj) && forall a :: a in live ==> !ObjectOf(s, size, a)
              then && slabs == old(slabs)[..|old(slabs)| - 1] && empty == (if FooterOf(e) == s + AVAIL then 0 else e)
                   && vms.writable == old(vms.writable) - {s / PAGE, s / PAGE + 1}
              else slabs == old(slabs) && empty == e && vms.writable == old(vms.writable)
      ensures Local(old(ram.bytes), ram.bytes, old(slabs), size, live)
      ensures LinksLocal(old(ram.links), ram.links, old(slabs))
    {
      hide Consistent, Vmspace.Valid, Used, Num, MapBytes, ObjectOf, Held, Fits, FooterOf, Local, LinksLocal;
      var f, k := Release(obj);
      LastLink(k);
      OwnerOnly(k, obj);
      NoLinks(ram.links, slabs);
      if ram.links(f) == 0 {
        var unused := AllUnused(f, slabs[k]);
        UnmarkedIff(k);
        if unused {
          Unlink(f);
          Destroy(f, old(slabs)[k]);
        }
      }
    }

    /** An object lies in one slab of the list. */
    lemma {:induction false} OwnerOnly(k: nat, obj: nat)
      requires Cached() && k < |slabs| && Fits(size) && ObjectOf(slabs[k], size, obj)
      ensures k < |slabs| - 1 ==> !ObjectOf(slabs[|slabs| - 1], size, obj)
    {
      hide Recorded, ObjectIn, Fits, Listed, ObjectOf, FooterOf;
      OfOneFooter(slabs[k], size, obj);
      if k < |slabs| - 1 {
        NotOf(slabs[|slabs| - 1], size, obj);
      }
    }

    /** A slab's bitmap is clear if and only if no live object is in it. */
    lemma {:induction false} UnmarkedIff(k: nat)
      requires Cached() && k < |slabs| && Fits(size)
      ensures Unmarked(ram.bytes, slabs[k], size) <==> forall a :: a in live ==> !ObjectOf(slabs[k], size, a)
    {
      hide Fits, Num, Used, ObjAt, Listed, ObjectIn, Distinct;
      MapCovers(size);
      assert Recorded(ram.bytes, slabs[k], size, live);
      forall i: nat | i < Num(size)
        ensures ObjectOf(slabs[k], size, ObjAt(slabs[k], size, i))
      {
      }
    }

    /** destroy, for a slab no longer on the list. */
    method Destroy(f: nat, ghost s: nat)
      requires Valid() && Held(vms, s, vms.writable) && s % SLAB == 0 && s !in slabs && f == s + AVAIL
      modifies vms.Repr()
      ensures Valid() && vms.writable == old(vms.writable) - {s / PAGE, s / PAGE + 1}
    {
      hide Consistent, Vmspace.Valid, AllHeld, Held, Distinct, StartOf, Fits, ObjectIn;
      SizeOk();
      InWindow(s);
      HeldLess(vms, slabs, vms.writable, s);
      GiveSlab(vms, StartOf(f));
    }

    lemma {:induction false} LastLink(k: nat)
      requires Cached() && k < |slabs|
      ensures Fits(size) && slabs[k] % SLAB == 0 && slabs[k] !in slabs[..k] && slabs[k] !in slabs[k + 1..]
      ensures ram.links(slabs[k] + AVAIL) == 0 <==> k == |slabs| - 1
    {
    }
  }

  /** A slab with a clear bitmap holds no live object. */
  lemma {:induction false} NoneLive(m: nat -> byte, s: nat, size: nat, live: set<nat>)
    requires Fits(size) && Recorded(m, s, size, live)
    requires Unmarked(m, s, size)
    ensures NoObjectOf(s, size, live)
  {
    hide Used, ObjAt;
    forall i: nat | i < Num(size)
      ensures ObjAt(s, size, i) !in live
    {
      assert !Used(m, s, size, i);
    }
  }

  lemma {:induction false} OfOneFooter(s: nat, size: nat, a: nat)
    requires s % SLAB == 0 && size > 0 && ObjectOf(s, size, a)
    ensures FooterOf(a) == s + AVAIL
  {
    var i: nat :| i < Num(size) && a == ObjAt(s, size, i);
    MaskFindsSlab(s, size, i, a);
  }

  lemma {:induction false} NotOf(s: nat, size: nat, a: nat)
    requires s % SLAB == 0 && size > 0 && FooterOf(a) != s + AVAIL
    ensures !ObjectOf(s, size, a)
  {
    if ObjectOf(s, size, a) {
      var i: nat :| i < Num(size) && a == ObjAt(s, size, i);
      MaskFindsSlab(s, size, i, a);
    }
  }

  /** Slabs other than s use none of its pages. */
  lemma {:induction false} PairsApart(slabs: seq<nat>, s: nat)
    requires s % SLAB == 0 && s !in slabs && forall k :: 0 <= k < |slabs| ==> slabs[k] % SLAB == 0
    ensures forall k :: 0 <= k < |slabs| ==>
              slabs[k] / PAGE !in {s / PAGE, s / PAGE + 1} && slabs[k] / PAGE + 1 !in {s / PAGE, s / PAGE + 1}
  {
    forall k | 0 <= k < |slabs|
      ensures slabs[k] / PAGE !in {s / PAGE, s / PAGE + 1} && slabs[k] / PAGE + 1 !in {s / PAGE, s / PAGE + 1}
    {
      SlabPages(s);
      SlabPages(slabs[k]);
    }
  }

  lemma {:induction false} SlabPages(s: nat)
    requires s % SLAB == 0
    ensures s / PAGE == 2 * (s / SLAB) && s == SLAB * (s / SLAB)
  {
  }

  /** vmspace_alloc of one slab. */
  method TakeSlab(vms: Vmspace) returns (ok: bool, s: nat)
    requires vms.Valid() && vms.allocator.start % SLAB == 0 && vms.allocator.start > 0
    modifies vms.Repr()
    ensures !ok <==> old(Dry(vms.allocator, 1)) || old(Dry(vms.pmm.mid, 1))
    ensures !ok ==> Dry(vms.allocator, 1) || Dry(vms.pmm.mid, 1)
    ensures ok ==> vms.Valid() && s % SLAB == 0 && s > 0 && Held(vms, s, vms.writable)
    ensures ok ==> SlabAdded(old(vms.writable), vms.writable, s)
    ensures ok ==> WritableFrom(vms.tables, s, 0x2000)
  {
    hide Dry, Isolated, Buddy.Valid, Pmm.Valid, AddressSpace.Valid, AddressSpace.Mapping,
      Vmspace.Tabled, Vmspace.FramesFit, RangeMap, Range, Shifted, Span, Legal, Apply;
    Log2OfPow2(1);
    ghost var before := vms.Abs();
    BackedMapped(before);
    ghost var p;
    ok, s, p := vms.Alloc(SLAB, 1);
    if !ok || s == NO_BLOCK {
      return false, 0;
    }
    SlabPlace(vms, s);
    SlabFresh(before, s / PAGE, p);
    SlabOpen(vms, s);
  }

  /** The pages of a slab taken were not backed. */
  lemma {:induction false} SlabFresh(s: MemState, q: nat, p: nat)
    requires Isolated(s) && Legal(s, AllocBacked(q, p, 2, 1)) && Span(q, 2) == {q, q + 1}
    ensures q !in s.backed && q + 1 !in s.backed
  {
    hide RangeMap, Range, Span;
    FreshBacked(s, q);
  }

  lemma {:induction false} PageOfSlab(s: nat, x: nat)
    requires s % SLAB == 0 && s <= x < s + 0x2000
    ensures x / 4096 == s / PAGE || x / 4096 == s / PAGE + 1
  {
    SlabPages(s);
  }

  /** Every byte of a slab can be written by the kernel, and none is open to user code. */
  lemma {:induction false} SlabOpen(vms: Vmspace, s: nat)
    requires vms.Valid() && s % SLAB == 0 && s / PAGE in vms.writable && s / PAGE + 1 in vms.writable
    ensures WritableFrom(vms.tables, s, 0x2000)
  {
    hide Isolated, Buddy.Valid, Pmm.Valid, AddressSpace.Valid, AddressSpace.Mapping, Vmspace.Tabled,
      Vmspace.FramesFit, AddressSpace.Walk, AddressSpace.Pte, WritablePages;
    forall x: word | s <= x < s + 0x2000
      ensures vms.tables.Walk(x, true).Some? && vms.tables.Pte(x / 4096) / 4 % 2 == 0
    {
      PageOfSlab(s, x);
      vms.WritableOpen(x);
    }
  }

  /** vmspace_free of one slab. */
  method GiveSlab(vms: Vmspace, s: nat)
    requires vms.Valid() && vms.allocator.start % SLAB == 0 && vms.allocator.start > 0 && Held(vms, s, vms.writable)
    modifies vms.Repr()
    ensures vms.Valid() && vms.writable == old(vms.writable) - {s / PAGE, s / PAGE + 1}
  {
    hide Isolated, Range, Span, Frames, CanGive, Log2Roundup, Buddy.Valid, Pmm.Valid,
      AddressSpace.Valid, AddressSpace.Mapping, Vmspace.Tabled, Vmspace.FramesFit, Shifted;
    SlabPlace(vms, s);
    CanGiveSlab(vms, s);
    Log2OfPow2(1);
    vms.Free(SLAB, s, true);
  }

  lemma {:induction false} CanGiveSlab(vms: Vmspace, s: nat)
    requires vms.Valid() && Held(vms, s, vms.writable)
    requires Span(s / PAGE, 2) == {s / PAGE, s / PAGE + 1} && Range(s / PAGE, s / PAGE + 2) == {s / PAGE, s / PAGE + 1}
    ensures CanGive(vms.Abs(), s / PAGE, 2)
  {
    hide Buddy.Valid, Pmm.Valid, AddressSpace.Valid, AddressSpace.Mapping,
      Vmspace.Tabled, Vmspace.FramesFit, Range, Span, Shifted;
  }

  /** A block of two pages lies on a slab boundary. */
  lemma {:induction false} SlabPlace(vms: Vmspace, s: nat)
    requires vms.allocator.start % SLAB == 0 && vms.allocator.start > 0 && vms.BlockInSpace(s, 2)
    ensures s % SLAB == 0 && s > 0
    ensures Span(s / PAGE, 2) == {s / PAGE, s / PAGE + 1} && Range(s / PAGE, s / PAGE + 2) == {s / PAGE, s / PAGE + 1}
  {
    Log2OfPow2(1);
    var b: Block :| b.order == Log2Roundup(2) && Names(vms.allocator, s, b);
    assert Lo(b) == 2 * b.index;
  }

  lemma {:induction false} FirstObject(s: nat, size: nat)
    requires Fits(size) && s % SLAB == 0
    ensures 0 < Num(size) && ObjAt(s, size, 0) == s && FooterOf(s) == s + AVAIL && StartOf(s + AVAIL) == s
  {
    NumBounds(size);
  }

  lemma {:induction false} InOwnObject(s: nat, size: nat, i: nat)
    requires size > 0
    ensures InObject(s, size, i, ObjAt(s, size, i))
  {
  }

  /** The bits of one byte of a bitmap. */
  lemma {:induction false} ByteOfMap(m: nat -> byte, s: nat, size: nat, i: nat)
    requires Fits(size) && i < MapBytes(size)
    ensures s + AVAIL >= MapBytes(size) && MapAt(s, size) + i == s + AVAIL - MapBytes(size) + i
    ensures forall j: nat :: 8 * i <= j < 8 * i + 8 ==> (Used(m, s, size, j) <==> Bit(m(MapAt(s, size) + i), j - 8 * i))
  {
    hide Bit, Num;
    forall j: nat | 8 * i <= j < 8 * i + 8
      ensures Used(m, s, size, j) <==> Bit(m(MapAt(s, size) + i), j - 8 * i)
    {
      assert j / 8 == i && j % 8 == j - 8 * i;
    }
  }

  lemma {:induction false} ObjectAddress(s: nat, size: nat, i: nat)
    requires s % SLAB == 0
    ensures StartOf(s + AVAIL) + size * i == ObjAt(s, size, i) && ObjAt(s, size, i) >= s
  {
  }

  /** Each object has a bit. */
  lemma {:induction false} MapCovers(size: nat)
    requires size > 0
    ensures Num(size) < 8 * MapBytes(size)
  {
  }
}
