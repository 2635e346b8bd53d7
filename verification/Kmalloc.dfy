/** kmalloc and kfree (kmalloc.c): the size class of a request, the tagged header that records it, and
    the heap of slab caches and whole blocks that share one address space. */
module Kmalloc {
  import opened Arith
  import opened Bitmaps
  import opened Banks
  import opened Buddies
  import opened PhysicalMemory
  import opened PageTables
  import opened Vmspaces
  import opened Slabs

  const CANARY: nat := 0xDEAD12

  // ---------- size classes ----------

  /** 1U << l2 as the x86 shift computes it: the count is taken modulo 32. */
  function Shift32(l2: nat): nat { Pow2(l2 % 32) }

  /** The exponent kmalloc records for a request of n bytes, header included. */
  function SizeClass(n: nat): nat
    requires 0 < n < 0x1_0000_0000
  {
    var l2 := Log2Roundup(n);
    if l2 < 3 then 3 else if l2 <= 9 then l2 else if Shift32(l2) < PAGE then 12 else l2
  }

  /** Slab classes, and powers of two of at least a page. */
  predicate Offered(l2: nat) { 3 <= l2 <= 9 || 12 <= l2 }

  lemma {:induction false} LogBound(n: nat)
    requires 0 < n < 0x1_0000_0000
    ensures Log2Roundup(n) <= 32 && (Log2Roundup(n) == 32 <==> n > 0x8000_0000)
  {
    hide Log2Roundup;
    BigPowers();
    var l2 := Log2Roundup(n);
    if l2 > 32 { Pow2Monotone(32, l2 - 1); }
    if l2 < 32 { Pow2Monotone(l2, 31); }
  }

  lemma {:induction false} BigPowers()
    ensures Pow2(31) == 0x8000_0000 && Pow2(32) == 0x1_0000_0000
  {
    Pow2Constants();
    assert Pow2(30) == 4 * Pow2(28);
  }

  /** Up to 2GB the class is offered, big enough, and the smallest such. */
  lemma {:induction false} ClassFits(n: nat)
    requires 0 < n <= 0x8000_0000
    ensures Offered(SizeClass(n)) && n <= Pow2(SizeClass(n))
    ensures forall c: nat :: Offered(c) && n <= Pow2(c) ==> SizeClass(n) <= c
  {
    hide Log2Roundup, Pow2;
    LogBound(n);
    var l2 := Log2Roundup(n);
    PageClass(l2);
    Pow2Monotone(l2, SizeClass(n));
    forall c: nat | Offered(c) && n <= Pow2(c)
      ensures SizeClass(n) <= c
    {
      if c < l2 { Pow2Monotone(c, l2 - 1); }
    }
  }

  /** Beyond 2GB the shift is by 32, and a single page is taken. */
  lemma {:induction false} HugeClass(n: nat)
    requires 0x8000_0000 < n < 0x1_0000_0000
    ensures SizeClass(n) == 12
  {
    hide Log2Roundup;
    LogBound(n);
  }

  /** sz += sizeof(uintptr_t), in 32 bits. */
  function WithHeader(sz: nat): nat { (sz + 4) % 0x1_0000_0000 }

  /** The block holds the header and the bytes asked for exactly when they come to at most 2GB: above that the
      shift makes it a page, and at the top of the range adding the header wraps around. */
  lemma {:induction false} BlockHoldsIff(sz: nat)
    requires sz < 0x1_0000_0000 && WithHeader(sz) > 0
    ensures sz + 4 <= Pow2(SizeClass(WithHeader(sz))) <==> sz + 4 <= 0x8000_0000
  {
    hide SizeClass, Pow2;
    var n := WithHeader(sz);
    if n > 0x8000_0000 {
      HugeClass(n);
      Pow2Constants();
    } else {
      ClassFits(n);
      if sz + 4 >= 0x1_0000_0000 {
        Pow2Constants();
        assert Offered(3);
        Pow2Monotone(SizeClass(n), 3);
      }
    }
  }

  /** A request for 2GB is answered with one page. */
  lemma {:induction false} TwoGigabytes()
    ensures SizeClass(WithHeader(0x8000_0000)) == 12 && Pow2(12) == PAGE
  {
    hide SizeClass, Pow2, Log2Roundup;
    HugeClass(0x8000_0004);
    Pow2Constants();
  }

  /** A request served from a slab cache goes to a class whose objects stay clear of the bitmap exactly when it
      is for more than 28 bytes. */
  lemma {:induction false} RequestFitsIff(sz: nat)
    requires sz + 4 <= 512
    ensures SizeClass(sz + 4) <= 9 && (Fits(Pow2(SizeClass(sz + 4))) <==> sz > 28)
  {
    hide Log2Roundup, Fits;
    var l2 := Log2Roundup(sz + 4);
    Pow2Constants();
    assert Pow2(5) == 32;
    if l2 > 9 { Pow2Monotone(9, l2 - 1); }
    if sz > 28 {
      if l2 < 6 { Pow2Monotone(l2, 5); }
    } else if l2 > 5 {
      Pow2Monotone(5, l2 - 1);
    }
    ClassFitsIff(SizeClass(sz + 4));
  }

  // ---------- the header ----------

  /** A byte from its bits. */
  function FromBits(b0: bool, b1: bool, b2: bool, b3: bool, b4: bool, b5: bool, b6: bool, b7: bool): byte {
    (if b0 then 1 else 0) | (if b1 then 2 else 0) | (if b2 then 4 else 0) | (if b3 then 8 else 0) |
    (if b4 then 16 else 0) | (if b5 then 32 else 0) | (if b6 then 64 else 0) | (if b7 then 128 else 0)
  }

  lemma {:induction false} BitsOf(b0: bool, b1: bool, b2: bool, b3: bool, b4: bool, b5: bool, b6: bool, b7: bool)
    ensures var b := FromBits(b0, b1, b2, b3, b4, b5, b6, b7);
            && Bit(b, 0) == b0 && Bit(b, 1) == b1 && Bit(b, 2) == b2 && Bit(b, 3) == b3
            && Bit(b, 4) == b4 && Bit(b, 5) == b5 && Bit(b, 6) == b6 && Bit(b, 7) == b7
  {
  }

  /** A number from its lowest binary digit and the rest, and back. */
  function Join(low: bool, rest: nat): (n: nat)
    ensures n <= 2 * rest + 1
  {
    if low then 2 * rest + 1 else 2 * rest
  }

  predicate Low(n: nat) { n % 2 == 1 }

  function Half(n: nat): nat { n / 2 }

  lemma {:induction false} JoinParts(low: bool, n: nat)
    ensures Low(Join(low, n)) == low && Half(Join(low, n)) == n && Join(Low(n), Half(n)) == n
  {
  }

  /** The value of a byte. */
  function ByteValue(b: byte): nat {
    Join(Bit(b, 0), Join(Bit(b, 1), Join(Bit(b, 2), Join(Bit(b, 3),
    Join(Bit(b, 4), Join(Bit(b, 5), Join(Bit(b, 6), Join(Bit(b, 7), 0))))))))
  }

  lemma {:induction false} ByteBound(b: byte)
    ensures ByteValue(b) < 256
  {
    hide Bit, Join;
  }

  /** The byte with a value. */
  function ByteFrom(n: nat): byte {
    var n1 := Half(n);
    var n2 := Half(n1);
    var n3 := Half(n2);
    var n4 := Half(n3);
    var n5 := Half(n4);
    var n6 := Half(n5);
    FromBits(Low(n), Low(n1), Low(n2), Low(n3), Low(n4), Low(n5), Low(n6), Low(Half(n6)))
  }

  lemma {:induction false} ByteOf(n: nat)
    requires n < 256
    ensures ByteValue(ByteFrom(n)) == n
  {
    hide Bit, FromBits, Join, Low;
    var n1 := Half(n);
    var n2 := Half(n1);
    var n3 := Half(n2);
    var n4 := Half(n3);
    var n5 := Half(n4);
    var n6 := Half(n5);
    var n7 := Half(n6);
    BitsOf(Low(n), Low(n1), Low(n2), Low(n3), Low(n4), Low(n5), Low(n6), Low(n7));
    assert Half(n7) == 0;
    JoinParts(true, n);
    JoinParts(true, n1);
    JoinParts(true, n2);
    JoinParts(true, n3);
    JoinParts(true, n4);
    JoinParts(true, n5);
    JoinParts(true, n6);
    JoinParts(true, n7);
  }

  lemma {:induction false} ByteBack(b: byte)
    ensures ByteFrom(ByteValue(b)) == b
  {
    hide Bit, FromBits, Join, Low, Half;
    var v7 := Join(Bit(b, 7), 0);
    var v6 := Join(Bit(b, 6), v7);
    var v5 := Join(Bit(b, 5), v6);
    var v4 := Join(Bit(b, 4), v5);
    var v3 := Join(Bit(b, 3), v4);
    var v2 := Join(Bit(b, 2), v3);
    var v1 := Join(Bit(b, 1), v2);
    JoinParts(Bit(b, 7), 0);
    JoinParts(Bit(b, 6), v7);
    JoinParts(Bit(b, 5), v6);
    JoinParts(Bit(b, 4), v5);
    JoinParts(Bit(b, 3), v4);
    JoinParts(Bit(b, 2), v3);
    JoinParts(Bit(b, 1), v2);
    JoinParts(Bit(b, 0), v1);
    AllBits(b);
  }

  lemma {:induction false} AllBits(b: byte)
    ensures FromBits(Bit(b, 0), Bit(b, 1), Bit(b, 2), Bit(b, 3), Bit(b, 4), Bit(b, 5), Bit(b, 6), Bit(b, 7)) == b
  {
  }

  /** Bytes of equal value are equal. */
  lemma {:induction false} SameValue(a: byte, b: byte)
    requires ByteValue(a) == ByteValue(b)
    ensures a == b
  {
    hide ByteValue, ByteFrom;
    ByteBack(a);
    ByteBack(b);
  }

  /** (KMALLOC_CANARY << 8) | l2 as it lies in memory, low byte first. */
  function HeaderBytes(l2: nat): (h: seq<byte>)
    requires l2 < 256
    ensures |h| == 4
  {
    [ByteFrom(l2), 0x12, 0xAD, 0xDE]
  }

  /** The 32-bit word at an address. */
  function WordAt(m: nat -> byte, at: nat): nat {
    ByteValue(m(at)) + 0x100 * ByteValue(m(at + 1)) +
    0x1_0000 * ByteValue(m(at + 2)) + 0x100_0000 * ByteValue(m(at + 3))
  }

  lemma {:induction false} Byte12()
    ensures ByteValue(0x12) == 0x12
  {
  }

  lemma {:induction false} ByteAD()
    ensures ByteValue(0xAD) == 0xAD
  {
  }

  lemma {:induction false} ByteDE()
    ensures ByteValue(0xDE) == 0xDE
  {
  }

  lemma {:induction false} CanaryBytes(b1: byte, b2: byte, b3: byte)
    ensures ByteValue(0x12) == 0x12 && ByteValue(0xAD) == 0xAD && ByteValue(0xDE) == 0xDE
    ensures ByteValue(b1) == 0x12 ==> b1 == 0x12
    ensures ByteValue(b2) == 0xAD ==> b2 == 0xAD
    ensures ByteValue(b3) == 0xDE ==> b3 == 0xDE
  {
    hide ByteValue;
    Byte12();
    ByteAD();
    ByteDE();
    if ByteValue(b1) == 0x12 { SameValue(b1, 0x12); }
    if ByteValue(b2) == 0xAD { SameValue(b2, 0xAD); }
    if ByteValue(b3) == 0xDE { SameValue(b3, 0xDE); }
  }

  lemma {:induction false} CanaryParts(b0: nat, b1: nat, b2: nat, b3: nat)
    requires b0 < 256 && b1 < 256 && b2 < 256 && b3 < 256
    ensures var w := b0 + 0x100 * b1 + 0x1_0000 * b2 + 0x100_0000 * b3;
            w % 256 == b0 && (w / 256 == CANARY <==> b1 == 0x12 && b2 == 0xAD && b3 == 0xDE)
  {
    var w := b0 + 0x100 * b1 + 0x1_0000 * b2 + 0x100_0000 * b3;
    var v := b1 + 0x100 * b2 + 0x1_0000 * b3;
    assert w == 256 * v + b0;
    assert w / 256 == v;
  }

  /** kfree decodes from an unmodified header the class that kmalloc put there, and the canary passes. */
  lemma {:induction false} HeaderRoundTrip(m: nat -> byte, at: nat, l2: nat)
    requires l2 < 256 && Holds(m, at, HeaderBytes(l2))
    ensures WordAt(m, at) == 0xDEAD_1200 + l2 && WordAt(m, at) % 256 == l2 && WordAt(m, at) / 256 == CANARY
  {
    hide ByteValue, ByteFrom;
    ByteOf(l2);
    var h := HeaderBytes(l2);
    assert m(at) == h[0] && m(at + 1) == h[1] && m(at + 2) == h[2] && m(at + 3) == h[3];
    CanaryBytes(h[1], h[2], h[3]);
    CanaryParts(ByteValue(h[0]), ByteValue(h[1]), ByteValue(h[2]), ByteValue(h[3]));
  }

  /** The canary passes exactly when the upper three bytes of the header are as written. */
  lemma {:induction false} CanaryIff(m: nat -> byte, at: nat)
    ensures WordAt(m, at) / 256 == CANARY <==> m(at + 1) == 0x12 && m(at + 2) == 0xAD && m(at + 3) == 0xDE
  {
    hide ByteValue;
    CanaryBytes(m(at + 1), m(at + 2), m(at + 3));
    ByteBound(m(at));
    ByteBound(m(at + 1));
    ByteBound(m(at + 2));
    ByteBound(m(at + 3));
    CanaryParts(ByteValue(m(at)), ByteValue(m(at + 1)), ByteValue(m(at + 2)), ByteValue(m(at + 3)));
  }

  // ---------- who owns which bytes ----------

  /** What the heap consists of: per class the slabs and live objects, the live blocks with their
      classes, and the pages the kernel may write. */
  datatype View = View(slabs: seq<seq<nat>>, live: seq<set<nat>>, blocks: map<nat, nat>, writable: set<nat>)

  predicate Small(l2: nat) { 6 <= l2 <= 9 }

  predicate Big(l2: nat) { 12 <= l2 <= 28 }

  /** The pages of a whole block. */
  ghost function PagesOf(p: nat, l2: nat): set<nat>
    requires 12 <= l2
  {
    Range(p / PAGE, p / PAGE + Pow2(l2 - 12))
  }

  function ClassBytes(i: nat): (r: nat)
    requires i < 4
    ensures Fits(r) && r >= 64 && r == Pow2(i + 6)
  {
    ClassFitsIff(i + 6);
    Pow2Monotone(6, i + 6);
    assert Pow2(6) == 64;
    Pow2(i + 6)
  }

  /** s is a slab of class i. */
  ghost predicate SlabOf(v: View, i: int, s: nat) {
    |v.slabs| == 4 && 0 <= i < 4 && s in v.slabs[i]
  }

  /** Slabs are disjoint, on slab boundaries, and can be written. */
  ghost predicate SlabsApart(v: View) {
    && |v.slabs| == 4
    && (forall i :: 0 <= i < 4 ==> Distinct(v.slabs[i]))
    && (forall i, j, s: nat :: SlabOf(v, i, s) && SlabOf(v, j, s) ==> i == j)
    && (forall i, s: nat :: SlabOf(v, i, s) ==> s / PAGE in v.writable && s / PAGE + 1 in v.writable)
  }

  /** The small blocks are the live objects of the caches. */
  ghost predicate SmallBlocks(v: View) {
    && |v.slabs| == 4 && |v.live| == 4
    && (forall i, a :: 0 <= i < 4 ==> (a in v.live[i] <==> a in v.blocks && v.blocks[a] == i + 6))
    && (forall i, a :: 0 <= i < 4 && a in v.live[i] ==> ObjectIn(v.slabs[i], ClassBytes(i), a))
  }

  /** The whole blocks have pages of their own. */
  ghost predicate BigBlocks(v: View) {
    && |v.slabs| == 4
    && (forall p :: p in v.blocks ==> Small(v.blocks[p]) || Big(v.blocks[p]))
    && (forall p :: p in v.blocks && Big(v.blocks[p]) ==> p % PAGE == 0 && PagesOf(p, v.blocks[p]) <= v.writable)
    && (forall p, i, s: nat :: p in v.blocks && Big(v.blocks[p]) && SlabOf(v, i, s) ==>
          s / PAGE !in PagesOf(p, v.blocks[p]) && s / PAGE + 1 !in PagesOf(p, v.blocks[p]))
    && (forall p, r :: p in v.blocks && r in v.blocks && Big(v.blocks[p]) && Big(v.blocks[r]) && p != r ==>
          PagesOf(p, v.blocks[p]) !! PagesOf(r, v.blocks[r]))
  }

  ghost predicate Separate(v: View) { SlabsApart(v) && SmallBlocks(v) && BigBlocks(v) }

  /** x is a byte of the block at p. */
  predicate InBlock(p: nat, l2: nat, x: nat) { p <= x < p + Pow2(l2) }

  /** A byte of a small block lies in a slab of its class. */
  lemma {:induction false} SmallByte(v: View, p: nat, x: nat) returns (k: nat, i: nat)
    requires Separate(v) && p in v.blocks && Small(v.blocks[p]) && InBlock(p, v.blocks[p], x)
    ensures var c := v.blocks[p] - 6;
            && k < |v.slabs[c]| && i < Num(ClassBytes(c)) && p == ObjAt(v.slabs[c][k], ClassBytes(c), i)
            && InObject(v.slabs[c][k], ClassBytes(c), i, x) && StartOf(x) == v.slabs[c][k] && SlabOf(v, c, StartOf(x))
  {
    hide BigBlocks, Num, Fits, Pow2, StartOf, ObjAt;
    var c := v.blocks[p] - 6;
    assert p in v.live[c] && ObjectIn(v.slabs[c], ClassBytes(c), p);
    k :| 0 <= k < |v.slabs[c]| && ObjectOf(v.slabs[c][k], ClassBytes(c), p);
    i :| i < Num(ClassBytes(c)) && p == ObjAt(v.slabs[c][k], ClassBytes(c), i);
    SlabStarts(v.slabs[c]);
    BytesOfObject(v.slabs[c][k], ClassBytes(c), i, x);
    ObjectWindow(v.slabs[c][k], ClassBytes(c), i, x);
  }

  /** A byte of a whole block lies in one of its pages, and in no slab. */
  lemma {:induction false} BigByte(v: View, p: nat, x: nat)
    requires BigBlocks(v) && p in v.blocks && Big(v.blocks[p]) && InBlock(p, v.blocks[p], x)
    ensures x / PAGE in PagesOf(p, v.blocks[p])
    ensures forall i :: !SlabOf(v, i, StartOf(x))
  {
    hide Range, StartOf, Pow2, SlabOf;
    PageOfByte(p, v.blocks[p], x);
    SlabPage(x);
  }

  lemma {:induction false} PageOfByte(p: nat, l2: nat, x: nat)
    requires Big(l2) && p % PAGE == 0 && InBlock(p, l2, x)
    ensures x / PAGE in PagesOf(p, l2)
  {
    PagesInBytes(l2 - 12);
  }

  lemma {:induction false} PagesInBytes(k: nat)
    ensures Pow2(k + 12) == PAGE * Pow2(k)
  {
    if k == 0 { Pow2Constants(); } else { PagesInBytes(k - 1); }
  }

  lemma {:induction false} SlabPage(x: nat)
    ensures x / PAGE == StartOf(x) / PAGE || x / PAGE == StartOf(x) / PAGE + 1
  {
    var a, r := x / SLAB, x % SLAB;
    assert x == 2 * a * PAGE + r && StartOf(x) == 2 * a * PAGE;
    assert if r < PAGE then x / PAGE == 2 * a else x / PAGE == 2 * a + 1;
  }

  lemma {:induction false} SmallApart(v: View, p: nat, r: nat, x: nat)
    requires Separate(v) && p in v.blocks && r in v.blocks && p != r && Small(v.blocks[p]) && Small(v.blocks[r])
    requires InBlock(p, v.blocks[p], x)
    ensures !InBlock(r, v.blocks[r], x)
  {
    hide StartOf, Pow2, InBlock, ObjectIn, Distinct, InObject, Num, ObjAt, BigBlocks, SmallBlocks, Fits, SlabOf;
    if InBlock(r, v.blocks[r], x) {
      var k, i := SmallByte(v, p, x);
      var k2, i2 := SmallByte(v, r, x);
      var c := v.blocks[p] - 6;
      SlabStarts(v.slabs[c]);
      ObjectsApart(StartOf(x), i, StartOf(x), i2, ClassBytes(c), x);
    }
  }

  lemma {:induction false} BigApart(v: View, p: nat, r: nat, x: nat)
    requires Separate(v) && p in v.blocks && r in v.blocks && p != r && Big(v.blocks[p])
    requires InBlock(p, v.blocks[p], x)
    ensures !InBlock(r, v.blocks[r], x)
  {
    hide Range, StartOf, Pow2, InBlock, PagesOf, ObjectIn, InObject, Num, ObjAt, SlabsApart, SmallBlocks, Fits;
    if InBlock(r, v.blocks[r], x) {
      BigByte(v, p, x);
      if Small(v.blocks[r]) {
        var k, i := SmallByte(v, r, x);
      } else {
        BigByte(v, r, x);
      }
    }
  }

  /** No byte belongs to two live blocks. */
  lemma {:induction false} BlocksApart(v: View, p: nat, r: nat, x: nat)
    requires Separate(v) && p in v.blocks && r in v.blocks && p != r && InBlock(p, v.blocks[p], x)
    ensures !InBlock(r, v.blocks[r], x)
  {
    hide SlabsApart, SmallBlocks, InBlock, PagesOf;
    if Big(v.blocks[p]) {
      BigApart(v, p, r, x);
    } else if Big(v.blocks[r]) {
      if InBlock(r, v.blocks[r], x) { BigApart(v, r, p, x); }
    } else {
      SmallApart(v, p, r, x);
    }
  }

  // ---------- steps of the heap, as values ----------

  /** A new slab for class c. */
  lemma {:induction false} GrowSlabs(v: View, c: nat, s: nat, pages: set<nat>)
    requires Separate(v) && c < 4 && Distinct([s] + v.slabs[c]) && SlabAdded(v.writable, pages, s)
    ensures Separate(v.(slabs := v.slabs[c := [s] + v.slabs[c]], writable := pages))
  {
    hide Range, PagesOf, Distinct, Fits, Num, ObjectIn, SlabOf;
    var w := v.(slabs := v.slabs[c := [s] + v.slabs[c]], writable := pages);
    forall i, t: nat | SlabOf(w, i, t)
      ensures SlabOf(v, i, t) || (i == c && t == s)
    {
      GrownSlab(v, w, c, s, i, t);
    }
    assert forall i :: !SlabOf(v, i, s);
    assert SlabsApart(w);
    GrownObjects(v, c, s);
    assert SmallBlocks(w);
    assert BigBlocks(w);
  }

  lemma {:induction false} GrownSlab(v: View, w: View, c: nat, s: nat, i: int, t: nat)
    requires |v.slabs| == 4 && c < 4 && w.slabs == v.slabs[c := [s] + v.slabs[c]] && SlabOf(w, i, t)
    ensures SlabOf(v, i, t) || (i == c && t == s)
  {
  }

  lemma {:induction false} GrownObjects(v: View, c: nat, s: nat)
    requires SmallBlocks(v) && c < 4
    ensures forall a :: a in v.live[c] ==> ObjectIn([s] + v.slabs[c], ClassBytes(c), a)
  {
    hide Fits, Num;
    forall a | a in v.live[c]
      ensures ObjectIn([s] + v.slabs[c], ClassBytes(c), a)
    {
      var k :| 0 <= k < |v.slabs[c]| && ObjectOf(v.slabs[c][k], ClassBytes(c), a);
      assert ([s] + v.slabs[c])[k + 1] == v.slabs[c][k];
    }
  }

  /** An object that is not live is no block, and may become one. */
  lemma {:induction false} AddObject(v: View, c: nat, obj: nat)
    requires Separate(v) && c < 4 && ObjectIn(v.slabs[c], ClassBytes(c), obj) && obj !in v.live[c]
    ensures obj !in v.blocks
    ensures Separate(v.(live := v.live[c := v.live[c] + {obj}], blocks := v.blocks[obj := c + 6]))
  {
    hide PagesOf, Distinct, Fits, Num, ObjectIn, SlabOf;
    NotABlock(v, c, obj);
    var w := v.(live := v.live[c := v.live[c] + {obj}], blocks := v.blocks[obj := c + 6]);
    SameSlabs(v, w);
    assert SmallBlocks(w);
    assert BigBlocks(w);
  }

  lemma {:induction false} SameSlabs(v: View, w: View)
    requires SlabsApart(v) && w.slabs == v.slabs
    ensures v.writable <= w.writable ==> SlabsApart(w)
    ensures forall i, s: nat :: SlabOf(w, i, s) <==> SlabOf(v, i, s)
  {
    hide Distinct;
    assert forall i, s: nat :: SlabOf(w, i, s) <==> SlabOf(v, i, s);
  }

  lemma {:induction false} NotABlock(v: View, c: nat, obj: nat)
    requires Separate(v) && c < 4 && ObjectIn(v.slabs[c], ClassBytes(c), obj) && obj !in v.live[c]
    ensures obj !in v.blocks
  {
    hide PagesOf, Distinct, Fits, Num, ObjAt, StartOf, InObject, Pow2, SlabsApart, BigBlocks;
    if obj in v.blocks {
      FirstByte(obj, v.blocks[obj]);
      var t :| 0 <= t < |v.slabs[c]| && ObjectOf(v.slabs[c][t], ClassBytes(c), obj);
      var j: nat :| j < Num(ClassBytes(c)) && obj == ObjAt(v.slabs[c][t], ClassBytes(c), j);
      StartsOf(v, c, v.slabs[c][t]);
      BytesOfObject(v.slabs[c][t], ClassBytes(c), j, obj);
      ObjectWindow(v.slabs[c][t], ClassBytes(c), j, obj);
      assert SlabOf(v, c, StartOf(obj));
      ForeignSlab(v, c, obj);
    }
  }

  /** A block that starts in a slab of class c is of that class. */
  lemma {:induction false} ForeignSlab(v: View, c: nat, p: nat)
    requires Separate(v) && p in v.blocks && SlabOf(v, c, StartOf(p))
    ensures v.blocks[p] == c + 6
  {
    hide PagesOf, Distinct, StartOf, InObject, Pow2, SmallBlocks, SlabOf;
    FirstByte(p, v.blocks[p]);
    if Big(v.blocks[p]) {
      BigByte(v, p, p);
    } else {
      var k, i := SmallByte(v, p, p);
    }
  }

  lemma {:induction false} FirstByte(p: nat, l2: nat)
    ensures InBlock(p, l2, p)
  {
  }

  lemma {:induction false} DropObject(v: View, c: nat, obj: nat)
    requires Separate(v) && c < 4 && obj in v.live[c]
    ensures obj in v.blocks && v.blocks[obj] == c + 6
    ensures Separate(v.(live := v.live[c := v.live[c] - {obj}], blocks := v.blocks - {obj}))
  {
    hide PagesOf, Distinct, Fits, Num, ObjectIn, SlabOf;
    var w := v.(live := v.live[c := v.live[c] - {obj}], blocks := v.blocks - {obj});
    SameSlabs(v, w);
    assert SmallBlocks(w);
    assert BigBlocks(w);
  }

  /** The last slab of class c, with no live object in it, goes. */
  lemma {:induction false} ShrinkSlabs(v: View, c: nat, pages: set<nat>)
    requires Separate(v) && c < 4 && v.slabs[c] != []
    requires var n := |v.slabs[c]| - 1; var s := v.slabs[c][n];
             && pages == v.writable - {s / PAGE, s / PAGE + 1} && Distinct(v.slabs[c][..n])
             && forall a :: a in v.live[c] ==> ObjectIn(v.slabs[c][..n], ClassBytes(c), a)
    ensures Separate(v.(slabs := v.slabs[c := v.slabs[c][..|v.slabs[c]| - 1]], writable := pages))
  {
    hide Range, PagesOf, Fits, Num, ObjectIn, Distinct, SlabOf;
    var n := |v.slabs[c]| - 1;
    var s := v.slabs[c][n];
    var w := v.(slabs := v.slabs[c := v.slabs[c][..n]], writable := pages);
    forall i, t: nat | SlabOf(w, i, t)
      ensures SlabOf(v, i, t) && t / PAGE in pages && t / PAGE + 1 in pages
    {
      OtherSlab(v, w, c, i, t);
    }
    assert SlabsApart(w);
    assert SlabOf(v, c, s) by { LastSlab(v, c); }
    assert SmallBlocks(w);
    assert BigBlocks(w);
  }

  lemma {:induction false} LastSlab(v: View, c: nat)
    requires |v.slabs| == 4 && c < 4 && v.slabs[c] != []
    ensures SlabOf(v, c, v.slabs[c][|v.slabs[c]| - 1])
  {
  }

  lemma {:induction false} OtherSlab(v: View, w: View, c: nat, i: int, t: nat)
    requires SlabsApart(v) && c < 4 && v.slabs[c] != []
    requires w.slabs == v.slabs[c := v.slabs[c][..|v.slabs[c]| - 1]] && SlabOf(w, i, t)
    ensures var s := v.slabs[c][|v.slabs[c]| - 1];
            SlabOf(v, i, t) && t / PAGE !in {s / PAGE, s / PAGE + 1} && t / PAGE + 1 !in {s / PAGE, s / PAGE + 1}
  {
    hide Distinct;
    var s := v.slabs[c][|v.slabs[c]| - 1];
    LastSlab(v, c);
    assert SlabOf(v, i, t);
    if i == c { OnceInList(v.slabs[c], t); }
    StartsOf(v, i, t);
    StartsOf(v, c, s);
    SlabPages(s);
    SlabPages(t);
  }

  lemma {:induction false} OnceInList(slabs: seq<nat>, t: nat)
    requires Distinct(slabs) && slabs != [] && t in slabs[..|slabs| - 1]
    ensures t != slabs[|slabs| - 1]
  {
  }

  lemma {:induction false} StartsOf(v: View, i: nat, t: nat)
    requires SlabsApart(v) && i < 4 && t in v.slabs[i]
    ensures t % SLAB == 0
  {
    hide Distinct;
    SlabStarts(v.slabs[i]);
  }

  /** A whole block on pages that were not in use. */
  lemma {:induction false} AddBig(v: View, p: nat, l2: nat)
    requires Separate(v) && Big(l2) && p % PAGE == 0 && PagesOf(p, l2) !! v.writable
    ensures p !in v.blocks
    ensures Separate(v.(blocks := v.blocks[p := l2], writable := v.writable + PagesOf(p, l2)))
  {
    hide Range, PagesOf, Fits, Num, ObjectIn, Distinct, Pow2, StartOf, SlabOf;
    FirstByte(p, l2);
    PageOfByte(p, l2, p);
    if p in v.blocks { BlockStart(v, p); }
    var w := v.(blocks := v.blocks[p := l2], writable := v.writable + PagesOf(p, l2));
    SameSlabs(v, w);
    assert SmallBlocks(w);
    assert BigBlocks(w);
  }

  /** Every byte of every block lies on a page that can be written. */
  lemma {:induction false} ByteWritable(v: View, p: nat, x: nat)
    requires Separate(v) && p in v.blocks && InBlock(p, v.blocks[p], x)
    ensures x / PAGE in v.writable
  {
    hide PagesOf, Distinct, StartOf, InObject, InBlock, SmallBlocks, SlabOf;
    if Big(v.blocks[p]) {
      BigByte(v, p, x);
    } else {
      var k, i := SmallByte(v, p, x);
      SlabPage(x);
    }
  }

  lemma {:induction false} BlockStart(v: View, p: nat)
    requires Separate(v) && p in v.blocks
    ensures p / PAGE in v.writable
  {
    hide Separate, InBlock;
    FirstByte(p, v.blocks[p]);
    ByteWritable(v, p, p);
  }

  lemma {:induction false} DropBig(v: View, p: nat)
    requires Separate(v) && p in v.blocks && Big(v.blocks[p])
    ensures Separate(v.(blocks := v.blocks - {p}, writable := v.writable - PagesOf(p, v.blocks[p])))
  {
    hide Range, PagesOf, Fits, Num, ObjectIn, Distinct, SlabOf;
    var w := v.(blocks := v.blocks - {p}, writable := v.writable - PagesOf(p, v.blocks[p]));
    SameSlabs(v, w);
    assert SlabsApart(w);
    assert SmallBlocks(w);
    assert BigBlocks(w);
  }

  // ---------- bytes ----------

  /** No byte of these blocks changes. */
  ghost predicate KeptBytes(m: nat -> byte, m': nat -> byte, blocks: map<nat, nat>) {
    forall p, x: nat :: p in blocks && InBlock(p, blocks[p], x) ==> m'(x) == m(x)
  }

  /** A step local to one cache leaves the bytes of all blocks but its own object alone. */
  lemma {:induction false} CacheStepKeeps(v: View, c: nat, obj: nat, m: nat -> byte, m': nat -> byte)
    requires Separate(v) && c < 4 && Local(m, m', v.slabs[c], ClassBytes(c), v.live[c] - {obj})
    ensures KeptBytes(m, m', v.blocks - {obj})
  {
    hide StartOf, PagesOf, Distinct, Fits, Num, ObjAt, InObject, ObjectIn, SlabOf, InBlock, BigBlocks;
    var rest := v.blocks - {obj};
    forall p, x: nat | p in rest && InBlock(p, rest[p], x)
      ensures m'(x) == m(x)
    {
      ByteOwner(v, c, p, x);
      assert v.blocks[p] == c + 6 ==> p in v.live[c] - {obj};
    }
  }

  /** A byte of a block lies in a slab of class c only if the block is of that class. */
  lemma {:induction false} ByteOwner(v: View, c: nat, p: nat, x: nat)
    requires Separate(v) && c < 4 && p in v.blocks && InBlock(p, v.blocks[p], x)
    ensures if v.blocks[p] == c + 6 then p in v.live[c] && p <= x < p + ClassBytes(c) else StartOf(x) !in v.slabs[c]
  {
    hide StartOf, PagesOf, Distinct, Fits, Num, ObjAt, InObject, ObjectIn;
    assert StartOf(x) in v.slabs[c] ==> SlabOf(v, c, StartOf(x));
    if Big(v.blocks[p]) {
      BigByte(v, p, x);
    } else {
      var k, i := SmallByte(v, p, x);
    }
  }

  /** Writing inside one block leaves the bytes of all others, and of all bitmaps and links, alone. */
  lemma {:induction false} BlockWriteKeeps(v: View, p: nat, m: nat -> byte, m': nat -> byte)
    requires Separate(v) && p in v.blocks && forall x: nat :: !InBlock(p, v.blocks[p], x) ==> m'(x) == m(x)
    ensures KeptBytes(m, m', v.blocks - {p})
    ensures Big(v.blocks[p]) ==> forall i, x: nat :: SlabOf(v, i, StartOf(x)) ==> m'(x) == m(x)
  {
    hide Separate, InBlock, StartOf, SlabOf;
    var rest := v.blocks - {p};
    forall r, x: nat | r in rest && InBlock(r, rest[r], x)
      ensures m'(x) == m(x)
    {
      if InBlock(p, v.blocks[p], x) { BlocksApart(v, p, r, x); }
    }
    if Big(v.blocks[p]) {
      forall i, x: nat | SlabOf(v, i, StartOf(x))
        ensures m'(x) == m(x)
      {
        if InBlock(p, v.blocks[p], x) { BigByteOf(v, p, x); }
      }
    }
  }

  lemma {:induction false} BigByteOf(v: View, p: nat, x: nat)
    requires Separate(v) && p in v.blocks && Big(v.blocks[p]) && InBlock(p, v.blocks[p], x)
    ensures forall i :: !SlabOf(v, i, StartOf(x))
  {
    hide SlabsApart, SmallBlocks, InBlock, StartOf;
    BigByte(v, p, x);
  }

  /** Every live block starts with its header. */
  ghost predicate Headers(m: nat -> byte, blocks: map<nat, nat>) {
    forall p :: p in blocks ==> 6 <= blocks[p] < 256 && Holds(m, p, HeaderBytes(blocks[p]))
  }

  lemma {:induction false} HeadersKept(m: nat -> byte, m': nat -> byte, blocks: map<nat, nat>)
    requires Headers(m, blocks) && KeptBytes(m, m', blocks)
    ensures Headers(m', blocks)
  {
    hide HeaderBytes;
    forall p | p in blocks
      ensures Holds(m', p, HeaderBytes(blocks[p]))
    {
      HeaderInBlock(p, blocks[p]);
      assert Holds(m, p, HeaderBytes(blocks[p]));
    }
  }

  lemma {:induction false} HeaderInBlock(p: nat, l2: nat)
    requires l2 >= 6
    ensures forall x: nat :: p <= x < p + 4 ==> InBlock(p, l2, x)
    ensures Pow2(l2) >= 64
  {
    assert Pow2(6) == 64;
    Pow2Monotone(6, l2);
  }

  lemma {:induction false} HeaderAdded(m: nat -> byte, m': nat -> byte, blocks: map<nat, nat>, p: nat, l2: nat)
    requires Headers(m, blocks) && KeptBytes(m, m', blocks) && 6 <= l2 < 256 && Holds(m', p, HeaderBytes(l2))
    ensures Headers(m', blocks[p := l2])
  {
    hide HeaderBytes;
    HeadersKept(m, m', blocks);
  }

  /** vmspace_alloc of a whole block. */
  method NewBlock(vms: Vmspace, l2: nat) returns (ok: bool, p: nat)
    requires vms.Valid() && Big(l2) && vms.allocator.start > 0
    modifies vms.Repr()
    ensures !ok <==> old(Dry(vms.allocator, l2 - 12)) || old(Dry(vms.pmm.mid, l2 - 12))
    ensures !ok ==> Dry(vms.allocator, l2 - 12) || Dry(vms.pmm.mid, l2 - 12)
    ensures ok ==> vms.Valid() && p > 0 && p % PAGE == 0 && vms.BlockInSpace(p, Pow2(l2 - 12))
    ensures ok ==> PagesOf(p, l2) !! old(vms.writable) && vms.writable == old(vms.writable) + PagesOf(p, l2)
    ensures ok ==> WritableFrom(vms.tables, p, Pow2(l2))
  {
    hide Dry, Isolated, Buddy.Valid, Pmm.Valid, AddressSpace.Valid, AddressSpace.Mapping,
      Vmspace.FramesFit, Vmspace.Tabled, RangeMap, Range, Span, Shifted, Pow2, Log2Roundup;
    var n := Pow2(l2 - 12);
    PagesInBytes(l2 - 12);
    Log2OfPow2(l2 - 12);
    ghost var before := vms.Abs();
    ghost var q;
    ok, p, q := vms.Alloc(Pow2(l2), 1);
    if !ok || p == NO_BLOCK {
      return false, 0;
    }
    vms.RegionPages(p, n);
    SpanHolds(p / PAGE, n);
    BlockWasFree(before, p / PAGE, n);
    BigOpen(vms, p, l2);
  }

  lemma {:induction false} BlockWasFree(s: MemState, q: nat, n: nat)
    requires Isolated(s) && n > 0 && Span(q, n) <= s.vfree && Span(q, n) == Range(q, q + n)
    ensures Range(q, q + n) !! s.backed
  {
  }

  /** Every byte of a whole block can be written by the kernel, and none is open to user code. */
  lemma {:induction false} BigOpen(vms: Vmspace, p: nat, l2: nat)
    requires vms.Valid() && Big(l2) && p % PAGE == 0 && PagesOf(p, l2) <= vms.writable
    ensures WritableFrom(vms.tables, p, Pow2(l2))
  {
    hide Isolated, Buddy.Valid, Pmm.Valid, AddressSpace.Valid, AddressSpace.Mapping, Vmspace.Tabled,
      Vmspace.FramesFit, AddressSpace.Walk, AddressSpace.Pte, Range, Pow2;
    PagesInBytes(l2 - 12);
    forall x: word | p <= x < p + Pow2(l2)
      ensures vms.tables.Walk(x, true).Some? && vms.tables.Pte(x / 4096) / 4 % 2 == 0
    {
      vms.WritableOpen(x);
    }
  }

  /** vmspace_free of a whole block. */
  method GiveBlock(vms: Vmspace, p: nat, l2: nat)
    requires vms.Valid() && Big(l2) && vms.BlockInSpace(p, Pow2(l2 - 12)) && PagesOf(p, l2) <= vms.writable
    modifies vms.Repr()
    ensures vms.Valid() && vms.writable == old(vms.writable) - PagesOf(p, l2)
  {
    hide Dry, Isolated, Buddy.Valid, Pmm.Valid, AddressSpace.Valid, AddressSpace.Mapping, Vmspace.FramesFit,
      Vmspace.Tabled, RangeMap, Range, Span, Shifted, Pow2, Log2Roundup, Frames, CanGive;
    var n := Pow2(l2 - 12);
    PagesInBytes(l2 - 12);
    Log2OfPow2(l2 - 12);
    SpanHolds(p / PAGE, n);
    CanGiveBlock(vms.Abs(), p / PAGE, n);
    vms.Free(Pow2(l2), p, true);
  }

  lemma {:induction false} CanGiveBlock(s: MemState, q: nat, n: nat)
    requires Isolated(s) && n > 0 && Range(q, q + n) <= s.backed && Span(q, n) == Range(q, q + n)
    ensures CanGive(s, q, n)
  {
    hide Range, Span;
  }

  /** slab_cache_alloc and the header. */
  method TakeTagged(cache: SlabCache, l2: nat) returns (ok: bool, p: nat)
    requires cache.Valid() && cache.init == [] && 4 <= cache.size && l2 < 256
    modifies cache, cache.ram, cache.vms.Repr()
    ensures Fits(cache.size)
    ensures !ok <==> old(cache.empty) == 0 && (old(Dry(cache.vms.allocator, 1)) || old(Dry(cache.vms.pmm.mid, 1)))
    ensures !ok ==> cache.empty == 0 && (Dry(cache.vms.allocator, 1) || Dry(cache.vms.pmm.mid, 1))
    ensures ok ==> cache.Valid() && p !in old(cache.live) && cache.live == old(cache.live) + {p}
    ensures ok ==> ObjectIn(cache.slabs, cache.size, p) && Holds(cache.ram.bytes, p, HeaderBytes(l2))
    ensures ok ==> if old(cache.empty) != 0
                   then cache.slabs == old(cache.slabs) && cache.vms.writable == old(cache.vms.writable)
                   else && cache.slabs == [p] + old(cache.slabs)
                        && SlabAdded(old(cache.vms.writable), cache.vms.writable, p)
    ensures ok ==> Local(old(cache.ram.bytes), cache.ram.bytes, cache.slabs, cache.size, old(cache.live))
    ensures ok ==> LinksLocal(old(cache.ram.links), cache.ram.links, cache.slabs)
  {
    hide Consistent, Vmspace.Valid, Dry, ObjectIn, Held, AllHeld,
      FullFrom, Fits, Local, LinksLocal, SlabAdded, HeaderBytes;
    cache.SizeOk();
    ghost var before := cache.live;
    ok, p := cache.Alloc();
    if !ok {
      return;
    }
    ghost var m := cache.ram.bytes;
    cache.ClientWrite(p, p, HeaderBytes(l2));
    assert cache.live - {p} == before;
    LocalJoin(old(cache.ram.bytes), m, cache.ram.bytes, cache.slabs, cache.slabs, cache.size, before);
  }

  /** The view after a small block is taken. */
  lemma {:induction false} TakenView(v: View, w: View, c: nat, p: nat, grew: bool)
    requires Separate(v) && c < 4 && |w.slabs| == 4 && w.slabs == v.slabs[c := w.slabs[c]] && Distinct(w.slabs[c])
    requires w.live == v.live[c := v.live[c] + {p}] && w.blocks == v.blocks[p := c + 6]
    requires ObjectIn(w.slabs[c], ClassBytes(c), p) && p !in v.live[c]
    requires if grew then w.slabs[c] == [p] + v.slabs[c] && SlabAdded(v.writable, w.writable, p)
             else w.slabs[c] == v.slabs[c] && w.writable == v.writable
    ensures p !in v.blocks && Separate(w) && w.blocks - {p} == v.blocks && w.live[c] - {p} == v.live[c]
  {
    hide Separate, Distinct, ObjectIn, SlabAdded;
    var u := if grew then v.(slabs := w.slabs, writable := w.writable) else v;
    if grew { GrowSlabs(v, c, p, w.writable); }
    assert u.slabs == w.slabs && u.live == v.live by { SeparateShape(v); }
    SeparateShape(u);
    AddObject(u, c, p);
    assert w == u.(live := u.live[c := u.live[c] + {p}], blocks := u.blocks[p := c + 6]);
    assert w.blocks - {p} == v.blocks;
  }

  lemma {:induction false} SeparateShape(v: View)
    requires Separate(v)
    ensures |v.slabs| == 4 && |v.live| == 4
  {
  }

  /** The view after a small block is given back. */
  lemma {:induction false} GivenView(v: View, u: View, w: View, c: nat, p: nat, shrank: bool)
    requires Separate(v) && c < 4 && p in v.live[c]
    requires u == v.(live := v.live[c := v.live[c] - {p}], blocks := v.blocks - {p})
    requires |w.slabs| == 4 && w.slabs == v.slabs[c := w.slabs[c]] && w.live == u.live && w.blocks == u.blocks
    requires Distinct(w.slabs[c]) && forall a :: a in w.live[c] ==> ObjectIn(w.slabs[c], ClassBytes(c), a)
    requires if shrank then && v.slabs[c] != [] && w.slabs[c] == v.slabs[c][..|v.slabs[c]| - 1]
                            && var s := v.slabs[c][|v.slabs[c]| - 1];
                               w.writable == v.writable - {s / PAGE, s / PAGE + 1}
             else w.slabs[c] == v.slabs[c] && w.writable == v.writable
    ensures Separate(u) && Separate(w)
  {
    hide SlabsApart, SmallBlocks, BigBlocks, Distinct, ObjectIn;
    DropObject(v, c, p);
    SeparateShape(v);
    if shrank {
      ShrinkSlabs(u, c, w.writable);
      assert w == u.(slabs := u.slabs[c := u.slabs[c][..|u.slabs[c]| - 1]], writable := w.writable);
    } else {
      assert w == u;
    }
  }

  /** The slabs of the classes other than c keep their bytes and links. */
  ghost predicate KeptSlabs(v: View, c: nat, m: nat -> byte, m': nat -> byte, links: nat -> nat, links': nat -> nat)
    requires |v.slabs| == 4
  {
    forall j, x: nat :: 0 <= j < 4 && j != c && StartOf(x) in v.slabs[j] ==> m'(x) == m(x) && links'(x) == links(x)
  }

  /** The pages of all slabs can be written. */
  ghost predicate OpenSlabs(v: View)
    requires |v.slabs| == 4
  {
    forall j, k :: 0 <= j < 4 && 0 <= k < |v.slabs[j]| ==>
      v.slabs[j][k] / PAGE in v.writable && v.slabs[j][k] / PAGE + 1 in v.writable
  }

  /** A step local to class c leaves the slabs of the other classes alone. */
  lemma {:induction false} OtherSlabsKept(v: View, c: nat, m: nat -> byte, m': nat -> byte, links: nat -> nat,
                                          links': nat -> nat, objects: set<nat>)
    requires Separate(v) && c < 4
    requires Local(m, m', v.slabs[c], ClassBytes(c), objects) && LinksLocal(links, links', v.slabs[c])
    ensures KeptSlabs(v, c, m, m', links, links')
  {
    hide StartOf, Distinct, Fits, Pow2, SmallBlocks, BigBlocks;
    forall j, x: nat | 0 <= j < 4 && j != c && StartOf(x) in v.slabs[j]
      ensures m'(x) == m(x) && links'(x) == links(x)
    {
      assert SlabOf(v, j, StartOf(x));
      assert SlabOf(v, c, StartOf(x)) ==> c == j;
    }
  }

  lemma {:induction false} SlabsOpen(v: View)
    requires Separate(v)
    ensures |v.slabs| == 4 && OpenSlabs(v)
  {
    hide Distinct, SmallBlocks, BigBlocks;
    forall j, k | 0 <= j < 4 && 0 <= k < |v.slabs[j]|
      ensures v.slabs[j][k] / PAGE in v.writable && v.slabs[j][k] / PAGE + 1 in v.writable
    {
      assert SlabOf(v, j, v.slabs[j][k]);
    }
  }

  // ---------- the heap ----------

  /** Whole blocks are blocks of the address space. */
  ghost predicate BigPlaced(vms: Vmspace, blocks: map<nat, nat>) {
    forall p :: p in blocks && Big(blocks[p]) ==> vms.BlockInSpace(p, Pow2(blocks[p] - 12))
  }

  lemma {:induction false} PlacedMore(vms: Vmspace, blocks: map<nat, nat>, p: nat, l2: nat)
    requires BigPlaced(vms, blocks) && (Big(l2) ==> vms.BlockInSpace(p, Pow2(l2 - 12)))
    ensures BigPlaced(vms, blocks[p := l2])
  {
    hide Pow2;
  }

  lemma {:induction false} EmptyHeap(v: View, vms: Vmspace, m: nat -> byte)
    requires v.slabs == [[], [], [], []] && v.live == [{}, {}, {}, {}] && v.blocks == map[]
    ensures Separate(v) && Headers(m, v.blocks) && BigPlaced(vms, v.blocks)
  {
  }

  /** A cache as slab_cache_create leaves it, for objects of 2^l2 bytes; sound from 64 bytes up. */
  ghost predicate Fresh(cache: SlabCache, vms: Vmspace, ram: Ram, l2: nat)
    reads cache, cache.ram, cache.vms.Repr()
  {
    && cache.vms == vms && cache.ram == ram && cache.size == Pow2(l2) && cache.init == []
    && cache.slabs == [] && cache.live == {} && cache !in vms.Repr()
    && (Small(l2) ==> cache.Valid())
  }

  /** The loop of kmalloc_init: caches for 8 to 512 bytes. */
  method NewCaches(vms: Vmspace, ram: Ram) returns (caches: seq<SlabCache>)
    requires vms.Valid() && vms.allocator.start % SLAB == 0 && vms.allocator.start > 0 && ram !in vms.Repr()
    ensures |caches| == 7 && forall i :: 0 <= i < 7 ==> fresh(caches[i]) && Fresh(caches[i], vms, ram, i + 3)
    ensures forall i, j :: 0 <= i < j < 7 ==> caches[i] != caches[j]
  {
    hide Vmspace.Valid, SlabCache.Valid, Fits, Pow2;
    caches := [];
    for n := 0 to 7
      invariant |caches| == n && forall i :: 0 <= i < n ==> fresh(caches[i]) && Fresh(caches[i], vms, ram, i + 3)
      invariant forall i, j :: 0 <= i < j < n ==> caches[i] != caches[j]
    {
      ClassFitsIff(n + 3);
      var cache := new SlabCache(vms, ram, Pow2(n + 3), []);
      assert Fresh(cache, vms, ram, n + 3);
      caches := caches + [cache];
    }
  }

  lemma {:induction false} LiveObject(v: View, c: nat, p: nat)
    requires Separate(v) && c < 4 && p in v.blocks && v.blocks[p] == c + 6
    ensures p in v.live[c]
  {
  }

  /** What giving back an object leaves alone. */
  lemma {:induction false} AfterGive(u: View, w: View, c: nat, p: nat, m: nat -> byte, m': nat -> byte,
                                     links: nat -> nat, links': nat -> nat)
    requires Separate(u) && Separate(w) && c < 4 && w.slabs == u.slabs[c := w.slabs[c]] && p !in u.blocks
    requires Local(m, m', u.slabs[c], ClassBytes(c), u.live[c]) && LinksLocal(links, links', u.slabs[c])
    ensures KeptBytes(m, m', u.blocks) && KeptSlabs(w, c, m, m', links, links')
  {
    hide Separate, KeptBytes, LinksLocal, StartOf, Local;
    SeparateShape(u);
    LocalLess(m, m', u.slabs[c], ClassBytes(c), u.live[c], u.live[c] - {p});
    CacheStepKeeps(u, c, p, m, m');
    assert u.blocks - {p} == u.blocks;
    OtherSlabsKept(u, c, m, m', links, links', u.live[c]);
  }

  lemma {:induction false} LocalLess(m: nat -> byte, m': nat -> byte, slabs: seq<nat>, size: nat, objects: set<nat>,
                                     fewer: set<nat>)
    requires Local(m, m', slabs, size, objects) && fewer <= objects
    ensures Local(m, m', slabs, size, fewer)
  {
  }

  lemma {:induction false} FewerBlocks(m: nat -> byte, vms: Vmspace, blocks: map<nat, nat>, p: nat)
    requires Headers(m, blocks) && BigPlaced(vms, blocks)
    ensures Headers(m, blocks - {p}) && BigPlaced(vms, blocks - {p})
  {
    hide Holds, HeaderBytes, Pow2;
  }

  lemma {:induction false} BigFacts(v: View, vms: Vmspace, p: nat)
    requires Separate(v) && BigPlaced(vms, v.blocks) && p in v.blocks && Big(v.blocks[p])
    ensures PagesOf(p, v.blocks[p]) <= v.writable && vms.BlockInSpace(p, Pow2(v.blocks[p] - 12))
  {
    hide SlabsApart, SmallBlocks, Pow2, PagesOf;
  }

  lemma {:induction false} BlockClass(v: View, p: nat)
    requires Separate(v) && p in v.blocks
    ensures Small(v.blocks[p]) || Big(v.blocks[p])
  {
    hide SlabsApart, SmallBlocks, PagesOf;
  }

  lemma {:induction false} NothingWritten(v: View, m: nat -> byte, links: nat -> nat)
    requires |v.slabs| == 4
    ensures KeptSlabs(v, 4, m, m, links, links)
  {
  }

  lemma {:induction false} SameBytes(m: nat -> byte, blocks: map<nat, nat>)
    ensures KeptBytes(m, m, blocks)
  {
  }

  /** Writing the header of a new whole block. */
  lemma {:induction false} HeaderWritten(v: View, p: nat, l2: nat, m: nat -> byte, links: nat -> nat)
    requires Separate(v) && p in v.blocks && v.blocks[p] == l2 && Big(l2)
    ensures var m' := Copied(m, p, HeaderBytes(l2));
            && Holds(m', p, HeaderBytes(l2)) && KeptBytes(m, m', v.blocks - {p})
            && |v.slabs| == 4 && KeptSlabs(v, 4, m, m', links, links)
  {
    hide Separate, HeaderBytes, KeptBytes, StartOf;
    SeparateShape(v);
    HeaderInBlock(p, l2);
    BlockWritten(v, p, m, Copied(m, p, HeaderBytes(l2)), links);
  }

  lemma {:induction false} BlockWritten(v: View, p: nat, m: nat -> byte, m': nat -> byte, links: nat -> nat)
    requires Separate(v) && p in v.blocks && Big(v.blocks[p]) && |v.slabs| == 4
    requires forall x: nat :: !InBlock(p, v.blocks[p], x) ==> m'(x) == m(x)
    ensures KeptBytes(m, m', v.blocks - {p}) && KeptSlabs(v, 4, m, m', links, links)
  {
    hide Separate, InBlock, StartOf, KeptBytes;
    BlockWriteKeeps(v, p, m, m');
    forall j, x: nat | 0 <= j < 4 && StartOf(x) in v.slabs[j]
      ensures m'(x) == m(x)
    {
      assert SlabOf(v, j, StartOf(x));
    }
  }

  /** The class of a request of more than 28 bytes: a slab class that fits, a block, or too large a block. */
  lemma {:induction false} ClassRange(n: nat)
    requires 32 < n < 0x1_0000_0000
    ensures Small(SizeClass(n)) || Big(SizeClass(n)) || 28 < SizeClass(n) < 32
  {
    hide Log2Roundup, Pow2;
    LogBound(n);
    var l2 := Log2Roundup(n);
    PageClass(l2);
    Pow2Five();
    if l2 < 6 { Pow2Monotone(l2, 5); }
  }

  lemma {:induction false} PowZero()
    ensures Pow2(0) == 1
  {
  }

  lemma {:induction false} Pow2Five()
    ensures Pow2(5) == 32
  {
  }

  lemma {:induction false} PageClass(l2: nat)
    ensures Pow2(l2) < PAGE <==> l2 < 12
    ensures l2 <= 32 ==> (Shift32(l2) < PAGE <==> l2 < 12 || l2 == 32)
    ensures Log2Roundup(PAGE) == 12
  {
    hide Pow2, Log2Roundup;
    Pow2Constants();
    BigPowers();
    Log2OfPow2(12);
    PowZero();
    if l2 < 12 { Pow2Monotone(l2, 12); } else { Pow2Monotone(12, l2); }
  }

  /** The choice kmalloc makes, for a request of any size. */
  method ChooseClass(n: nat) returns (l2: nat)
    requires 0 < n < 0x1_0000_0000
    ensures l2 == SizeClass(n)
  {
    hide Shift32, Log2Roundup;
    l2 := Log2Roundup(n);
    if l2 < 3 {
      l2 := 3;
    }
    if !(3 <= l2 <= 9) {
      var bytes := Shift32(l2);
      PageClass(l2);
      if bytes < PAGE {
        bytes := PAGE;
        l2 := Log2Roundup(bytes);
      }
    }
  }

  /** A write past the header of a block stays inside the block. */
  lemma {:induction false} WriteInside(m: nat -> byte, p: nat, l2: nat, x: nat, bs: seq<byte>)
    requires p + 4 <= x && x + |bs| <= p + Pow2(l2)
    ensures forall y: nat :: !InBlock(p, l2, y) ==> Copied(m, x, bs)(y) == m(y)
    ensures forall y: nat :: !(p <= y < p + Pow2(l2)) ==> Copied(m, x, bs)(y) == m(y)
  {
  }

  lemma {:induction false} WriteHeaders(m: nat -> byte, p: nat, blocks: map<nat, nat>, x: nat, bs: seq<byte>)
    requires Headers(m, blocks) && p in blocks && p + 4 <= x && KeptBytes(m, Copied(m, x, bs), blocks - {p})
    ensures Headers(Copied(m, x, bs), blocks)
  {
    hide HeaderBytes, KeptBytes;
    var m' := Copied(m, x, bs);
    var rest := blocks - {p};
    assert Headers(m, rest);
    assert Holds(m, p, HeaderBytes(blocks[p]));
    HeaderAdded(m, m', rest, p, blocks[p]);
    assert rest[p := blocks[p]] == blocks;
  }

  class Heap {
    const vms: Vmspace
    const ram: Ram
    /** The caches of 8, 16, 32, 64, 128, 256 and 512 bytes. */
    const caches: seq<SlabCache>
    /** The live blocks, by the address of their headers, with the class recorded there. */
    ghost var blocks: map<nat, nat>

    ghost predicate Wired() {
      && |caches| == 7
      && (forall i: nat :: i < 4 ==> CacheFor(i, Cache(i)))
      && (forall i: nat, j: nat :: i < j < 4 ==> Cache(i) != Cache(j))
      && this !in vms.Repr() && ram !in vms.Repr() && vms.allocator.start > 0
    }

    /** The i-th of the caches whose objects fit: 64 bytes and up. */
    function Cache(i: nat): SlabCache
      requires |caches| == 7 && i < 4
    {
      caches[i + 3]
    }

    ghost predicate CacheFor(i: nat, cache: SlabCache)
      requires i < 4
    {
      cache.vms == vms && cache.ram == ram && cache.size == ClassBytes(i) && cache.init == [] && cache !in vms.Repr()
    }

    ghost function Now(): View
      requires |caches| == 7
      reads this, caches, vms
    {
      View([Cache(0).slabs, Cache(1).slabs, Cache(2).slabs, Cache(3).slabs],
           [Cache(0).live, Cache(1).live, Cache(2).live, Cache(3).live], blocks, vms.writable)
    }

    ghost predicate CachesValid()
      requires Wired()
      reads caches, ram, vms.Repr()
    {
      forall i: nat :: i < 4 ==> Cache(i).Valid()
    }

    ghost predicate Valid()
      reads this, caches, ram, vms.Repr()
    {
      Wired() && vms.Valid() && CachesValid() && Separate(Now()) && Headers(ram.bytes, blocks) && BigPlaced(vms, blocks)
    }

    /** kmalloc_init, over an address space that is ready. */
    constructor (vms: Vmspace, ram: Ram)
      requires vms.Valid() && vms.allocator.start % SLAB == 0 && vms.allocator.start > 0 && ram !in vms.Repr()
      ensures Valid() && this.vms == vms && this.ram == ram && blocks == map[]
      ensures |caches| == 7 && forall i :: 0 <= i < 7 ==> fresh(caches[i])
    {
      hide Vmspace.Valid, SlabCache.Valid, Separate, Headers, BigPlaced, Fits, Pow2;
      var all := NewCaches(vms, ram);
      this.vms, this.ram, this.caches, this.blocks := vms, ram, all, map[];
      new;
      EmptyHeap(Now(), vms, ram.bytes);
    }

    lemma {:induction false} SevenCaches()
      requires Valid()
      ensures |caches| == 7
    {
      hide CachesValid, Separate, Vmspace.Valid, Headers, BigPlaced, CacheFor;
    }

    lemma {:induction false} Fields(c: nat)
      requires Wired() && c < 4
      ensures Now().slabs[c] == Cache(c).slabs && Now().live[c] == Cache(c).live
      ensures CacheFor(c, Cache(c))
    {
    }

    /** A block of the class cannot be had: no hint and no room for a slab, or no room for a whole block. */
    ghost predicate Starved(l2: nat)
      requires |caches| == 7 && (Small(l2) || Big(l2))
      reads caches, vms.Repr()
    {
      if l2 <= 9 then caches[l2 - 3].empty == 0 && (Dry(vms.allocator, 1) || Dry(vms.pmm.mid, 1))
      else Dry(vms.allocator, l2 - 12) || Dry(vms.pmm.mid, l2 - 12)
    }

    /** The slab half of kmalloc. */
    method TakeSmall(c: nat) returns (ok: bool, p: nat)
      requires Valid() && c < 4
      modifies this, caches, ram, vms.Repr()
      ensures |caches| == 7 && (!ok <==> old(Starved(c + 6))) && (!ok ==> Starved(c + 6))
      ensures ok ==> Valid() && p !in old(blocks) && blocks == old(blocks)[p := c + 6]
      ensures ok ==> KeptBytes(old(ram.bytes), ram.bytes, old(blocks))
    {
      hide Vmspace.Repr, Vmspace.Valid, SlabCache.Valid, Dry, Separate, ObjectIn,
        Fits, Local, LinksLocal, SlabAdded, HeaderBytes, Headers, KeptBytes, Distinct,
        Holds, StartOf, Pow2, InBlock, BigPlaced, ClassBytes, KeptSlabs, OpenSlabs;
      ghost var v := Now();
      Fields(c);
      var cache := Cache(c);
      ghost var grew := cache.empty == 0;
      ok, p := TakeTagged(cache, c + 6);
      if !ok {
        return;
      }
      blocks := blocks[p := c + 6];
      ghost var w := Now();
      Fields(c);
      CacheFacts(cache);
      assert w.slabs == v.slabs[c := w.slabs[c]] && w.live == v.live[c := v.live[c] + {p}];
      TakenView(v, w, c, p, grew);
      CacheStepKeeps(w, c, p, old(ram.bytes), ram.bytes);
      HeaderAdded(old(ram.bytes), ram.bytes, old(blocks), p, c + 6);
      OtherSlabsKept(w, c, old(ram.bytes), ram.bytes, old(ram.links), ram.links, v.live[c]);
      SlabsOpen(w);
      OthersValid(c);
      PlacedMore(vms, old(blocks), p, c + 6);
    }

    /** The slab half of kfree. */
    method GiveSmall(c: nat, p: nat)
      requires Valid() && c < 4 && p in blocks && blocks[p] == c + 6
      modifies this, caches, ram, vms.Repr()
      ensures Valid() && blocks == old(blocks) - {p}
      ensures KeptBytes(old(ram.bytes), ram.bytes, blocks)
    {
      hide Vmspace.Repr, Vmspace.Valid, SlabCache.Valid, Separate, ObjectIn, ObjectOf,
        Fits, Local, LinksLocal, HeaderBytes, Headers, KeptBytes, Distinct, Holds, StartOf,
        Pow2, InBlock, BigPlaced, ClassBytes, KeptSlabs, OpenSlabs, HintAfter, FooterOf;
      ghost var v := Now();
      Fields(c);
      LiveObject(v, c, p);
      var cache := Cache(c);
      cache.Free(p);
      blocks := blocks - {p};
      ghost var w := Now();
      ghost var u := v.(live := v.live[c := v.live[c] - {p}], blocks := v.blocks - {p});
      Fields(c);
      CacheFacts(cache);
      assert w.slabs == v.slabs[c := w.slabs[c]] && w.live == u.live;
      GivenView(v, u, w, c, p, |cache.slabs| < |v.slabs[c]|);
      AfterGive(u, w, c, p, old(ram.bytes), ram.bytes, old(ram.links), ram.links);
      FewerBlocks(old(ram.bytes), vms, old(blocks), p);
      HeadersKept(old(ram.bytes), ram.bytes, blocks);
      SlabsOpen(w);
      OthersValid(c);
    }

    /** The vmspace half of kmalloc. */
    method TakeBig(l2: nat) returns (ok: bool, p: nat)
      requires Valid() && Big(l2)
      modifies this, ram, vms.Repr()
      ensures |caches| == 7 && (!ok <==> old(Starved(l2))) && (!ok ==> Starved(l2))
      ensures ok ==> Valid() && p !in old(blocks) && blocks == old(blocks)[p := l2]
      ensures ok ==> KeptBytes(old(ram.bytes), ram.bytes, old(blocks))
    {
      hide Vmspace.Repr, Vmspace.Valid, SlabCache.Valid, Dry, Separate, HeaderBytes, Headers, KeptBytes,
        Holds, Pow2, BigPlaced, KeptSlabs, OpenSlabs, PagesOf, Copied, Vmspace.BlockInSpace;
      ghost var v := Now();
      ok, p := NewBlock(vms, l2);
      if !ok {
        return;
      }
      var m := ram.bytes;
      ram.bytes := Copied(m, p, HeaderBytes(l2));
      blocks := blocks[p := l2];
      AddBig(v, p, l2);
      ghost var w := Now();
      assert w == v.(blocks := v.blocks[p := l2], writable := v.writable + PagesOf(p, l2));
      HeaderWritten(w, p, l2, m, ram.links);
      assert w.blocks - {p} == v.blocks;
      HeaderAdded(m, ram.bytes, old(blocks), p, l2);
      SlabsOpen(w);
      OthersValid(4);
      PlacedMore(vms, old(blocks), p, l2);
    }

    /** The vmspace half of kfree. */
    method GiveBig(p: nat, l2: nat)
      requires Valid() && p in blocks && blocks[p] == l2 && Big(l2)
      modifies this, vms.Repr()
      ensures Valid() && blocks == old(blocks) - {p}
    {
      hide Vmspace.Valid, SlabCache.Valid, Separate, HeaderBytes, Headers, KeptBytes,
        Holds, Pow2, BigPlaced, KeptSlabs, OpenSlabs, PagesOf, Vmspace.BlockInSpace;
      ghost var v := Now();
      BigFacts(v, vms, p);
      GiveBlock(vms, p, l2);
      blocks := blocks - {p};
      DropBig(v, p);
      ghost var w := Now();
      assert w == v.(blocks := v.blocks - {p}, writable := v.writable - PagesOf(p, l2));
      FewerBlocks(ram.bytes, vms, old(blocks), p);
      SlabsOpen(w);
      NothingWritten(w, ram.bytes, ram.links);
      OthersValid(4);
    }

    /** The kernel stops on a request of this class: a block of more than 256MB makes buddy_alloc panic, any
        other may not be had. */
    ghost predicate Stops(l2: nat)
      requires |caches| == 7 && (Small(l2) || Big(l2) || 28 < l2)
      reads caches, vms.Repr()
    {
      28 < l2 || Starved(l2)
    }

    /** kmalloc, for requests that go to a class whose objects fit their slabs.  The block is new, holds the
        header and the bytes asked for if they come to at most 2GB, and no byte of another block changes. */
    method Kmalloc(sz: nat) returns (ok: bool, p: nat)
      requires Valid() && 28 < sz && sz + 4 < 0x1_0000_0000
      modifies this, caches, ram, vms.Repr()
      ensures var l2 := SizeClass(sz + 4);
              && |caches| == 7 && (Small(l2) || Big(l2) || 28 < l2)
              && (!ok <==> old(Stops(l2))) && (!ok ==> Stops(l2))
              && (sz + 4 <= Pow2(l2) <==> sz + 4 <= 0x8000_0000)
      ensures ok ==> Valid() && p >= 4 && p - 4 !in old(blocks) && blocks == old(blocks)[p - 4 := SizeClass(sz + 4)]
      ensures ok ==> KeptBytes(old(ram.bytes), ram.bytes, old(blocks))
    {
      hide Valid, Starved, KeptBytes, Pow2, Log2Roundup, SizeClass;
      SevenCaches();
      BlockHoldsIff(sz);
      ClassRange(sz + 4);
      var l2 := ChooseClass(sz + 4);
      var ptr := 0;
      if l2 <= 9 {
        ok, ptr := TakeSmall(l2 - 6);
      } else if l2 > 28 {
        ok := false;
      } else {
        ok, ptr := TakeBig(l2);
      }
      p := ptr + 4;
    }

    /** kfree of a live block whose header was left alone: the canary passes, and the block goes back to
        where it came from. */
    method Kfree(p: nat) returns (passed: bool)
      requires Valid() && p >= 4 && p - 4 in blocks
      modifies this, caches, ram, vms.Repr()
      ensures passed && Valid() && blocks == old(blocks) - {p - 4}
      ensures KeptBytes(old(ram.bytes), ram.bytes, blocks)
    {
      hide Separate, CachesValid, KeptBytes, Pow2, Vmspace.Valid, SlabCache.Valid, HeaderBytes, Holds, WordAt;
      var ptr := p - 4;
      var l2 := WordAt(ram.bytes, ptr) % 256;
      var canary := WordAt(ram.bytes, ptr) / 256;
      HeaderRoundTrip(ram.bytes, ptr, blocks[ptr]);
      BlockClass(Now(), ptr);
      passed := canary == CANARY;
      if !passed {
        return;
      }
      if l2 <= 9 {
        GiveSmall(l2 - 6, ptr);
      } else {
        GiveBig(ptr, l2);
        SameBytes(ram.bytes, blocks);
      }
    }

    /** A client writes to a block it holds, past the header. */
    method Write(p: nat, x: nat, bs: seq<byte>)
      requires Valid() && p >= 4 && p - 4 in blocks && p <= x && x + |bs| <= p - 4 + Pow2(blocks[p - 4])
      modifies ram`bytes
      ensures Valid() && ram.bytes == old(Copied(ram.bytes, x, bs))
      ensures KeptBytes(old(ram.bytes), ram.bytes, blocks - {p - 4})
    {
      hide Vmspace.Valid, SlabCache.Valid, Separate, HeaderBytes, Headers, KeptBytes, Holds,
        Pow2, BigPlaced, KeptSlabs, OpenSlabs, Copied, Local, LinksLocal, InBlock, StartOf;
      ghost var ptr, v := p - 4, Now();
      ram.bytes := Copied(ram.bytes, x, bs);
      WriteInside(old(ram.bytes), ptr, blocks[ptr], x, bs);
      BlockWriteKeeps(v, ptr, old(ram.bytes), ram.bytes);
      WriteHeaders(old(ram.bytes), ptr, blocks, x, bs);
      BlockClass(v, ptr);
      SlabsOpen(v);
      if Small(blocks[ptr]) {
        ghost var c := blocks[ptr] - 6;
        Fields(c);
        LiveObject(v, c, ptr);
        Cache(c).WrittenValid(ptr);
        NoLinks(ram.links, v.slabs[c]);
        OtherSlabsKept(v, c, old(ram.bytes), ram.bytes, ram.links, ram.links, v.live[c] - {ptr});
        OthersValid(c);
      } else {
        BlockWritten(v, ptr, old(ram.bytes), ram.bytes, ram.links);
        OthersValid(4);
      }
    }

    /** Every byte of every live block can be written by the kernel, and none is open to user code. */
    lemma {:induction false} BlockOpen(p: nat)
      requires Valid() && p in blocks
      ensures WritableFrom(vms.tables, p, Pow2(blocks[p])) && p + Pow2(blocks[p]) <= 0x1_0000_0000
    {
      hide Separate, CachesValid, Headers, BigPlaced, Vmspace.Valid, CacheFor, AddressSpace.Walk,
        AddressSpace.Pte, Pow2;
      vms.SpaceFacts();
      forall x: word | p <= x < p + Pow2(blocks[p])
        ensures vms.tables.Walk(x, true).Some? && vms.tables.Pte(x / 4096) / 4 % 2 == 0
      {
        ByteWritable(Now(), p, x);
        vms.WritableOpen(x);
      }
      var last := p + Pow2(blocks[p]) - 1;
      ByteWritable(Now(), p, last);
      vms.WritableBelow(last / PAGE);
    }

    /** Caches that were not touched, c being the one that was, are still good. */
    twostate lemma {:induction false} OthersValid(c: nat)
      requires Wired() && old(CachesValid()) && vms.Valid()
      requires forall j: nat :: j < 4 && j != c ==> unchanged(Cache(j))
      requires KeptSlabs(Now(), c, old(ram.bytes), ram.bytes, old(ram.links), ram.links) && OpenSlabs(Now())
      ensures forall j: nat :: j < 4 && j != c ==> Cache(j).Valid()
    {
      hide Vmspace.Valid, SlabCache.Valid, StartOf, Fits;
      forall j: nat | j < 4 && j != c
        ensures Cache(j).Valid()
      {
        Fields(j);
        Cache(j).StillValid();
      }
    }
  }

  lemma {:induction false} CacheFacts(cache: SlabCache)
    requires cache.Valid()
    ensures Distinct(cache.slabs) && cache.vms.Valid() && Fits(cache.size)
    ensures forall a :: a in cache.live ==> ObjectIn(cache.slabs, cache.size, a)
  {
    hide Vmspace.Valid;
  }
}
