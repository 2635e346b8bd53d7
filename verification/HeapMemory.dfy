/** The flat memory the slab and heap modules work on, as it lies in the physical words behind the page tables
    (vmspace.c, arch/x86/vmm.c). */
module HeapMemory {
  import opened Arith
  import opened Bitmaps
  import opened BuddyTheory
  import opened Banks
  import opened Buddies
  import opened PageTables
  import opened PhysicalMemory
  import opened Vmspaces
  import opened Slabs
  import opened Kmalloc

  // ---------- the bytes of a word ----------

  /** The k-th byte of a word, low byte first, as a number. */
  function Part(w: nat, k: nat): (r: nat)
    requires k < 4
    ensures r < 256
  {
    if k == 0 then w % 256 else Part(w / 256, k - 1)
  }

  /** The word of four bytes. */
  function WordOf(b0: nat, b1: nat, b2: nat, b3: nat): (w: word)
    requires b0 < 256 && b1 < 256 && b2 < 256 && b3 < 256
  {
    b0 + 256 * (b1 + 256 * (b2 + 256 * b3))
  }

  lemma {:induction false} PartsOf(b0: nat, b1: nat, b2: nat, b3: nat)
    requires b0 < 256 && b1 < 256 && b2 < 256 && b3 < 256
    ensures var w := WordOf(b0, b1, b2, b3);
            Part(w, 0) == b0 && Part(w, 1) == b1 && Part(w, 2) == b2 && Part(w, 3) == b3
  {
    var w3 := b3;
    var w2 := b2 + 256 * w3;
    var w1 := b1 + 256 * w2;
    Quotient(b0 + 256 * w1, 256, w1, b0);
    Quotient(w1, 256, w2, b1);
    Quotient(w2, 256, w3, b2);
    var w := WordOf(b0, b1, b2, b3);
    assert Part(w, 1) == Part(w1, 0);
    assert Part(w, 2) == Part(w1, 1) == Part(w2, 0);
    assert Part(w, 3) == Part(w1, 2) == Part(w2, 1) == Part(w3, 0);
  }

  function ByteIn(w: nat, k: nat): byte
    requires k < 4
  {
    ByteFrom(Part(w, k))
  }

  /** The word after a store to one of its bytes. */
  function WithByte(w: nat, k: nat, b: byte): word
    requires k < 4
  {
    ByteBound(b);
    WordOf(if k == 0 then ByteValue(b) else Part(w, 0), if k == 1 then ByteValue(b) else Part(w, 1),
           if k == 2 then ByteValue(b) else Part(w, 2), if k == 3 then ByteValue(b) else Part(w, 3))
  }

  lemma {:induction false} StoredByte(w: nat, k: nat, b: byte, j: nat)
    requires k < 4 && j < 4
    ensures ByteIn(WithByte(w, k, b), j) == if j == k then b else ByteIn(w, j)
  {
    hide ByteValue, ByteFrom, Part, WordOf;
    ByteBound(b);
    ByteBack(b);
    PartsOf(if k == 0 then ByteValue(b) else Part(w, 0), if k == 1 then ByteValue(b) else Part(w, 1),
            if k == 2 then ByteValue(b) else Part(w, 2), if k == 3 then ByteValue(b) else Part(w, 3));
  }

  // ---------- flat memory and physical memory ----------

  /** On some pages a flat memory is what the physical words behind them hold. */
  ghost predicate Reflects(tables: AddressSpace, pages: set<nat>, m: nat -> byte)
    requires tables.Shaped()
    reads tables.words
  {
    forall x: word :: x / 4096 in pages ==>
      tables.DataPage(x / 4096) && m(x) == ByteIn(tables.View(x / 4096).data[x % 4096 / 4], x % 4)
  }

  /** A load from a backed page finds the word that flat memory reflects. */
  lemma {:induction false} LoadSees(vms: Vmspace, x: word)
    requires vms.Valid() && x / 4096 in vms.backed
    ensures x / 4096 < FRAMES && vms.tables.Walk(x, false).Some?
    ensures vms.tables.words[vms.tables.Walk(x, false).value] == vms.tables.View(x / 4096).data[x % 4096 / 4]
  {
    hide Pmm.Valid, Buddy.Valid, Frame, Present, Writable, Vmspace.Tabled,
      AddressSpace.Valid, AddressSpace.Mapping, Isolated, Vmspace.FramesFit;
    vms.BackedData(x / 4096);
    assert x / 0x40_0000 == x / 4096 / 1024;
  }

  /** What loads find. */
  ghost predicate Seen(vms: Vmspace, m: nat -> byte)
    requires vms.tables.Shaped()
    reads vms, vms.tables.words
  {
    forall u: word :: u / 4096 in vms.backed ==>
      && vms.tables.Walk(u, false).Some?
      && m(u) == ByteIn(vms.tables.words[vms.tables.Walk(u, false).value], u % 4)
  }

  /** Flat memory reflects the backed pages exactly when it is what loads find there. */
  lemma {:induction false} SeenIff(vms: Vmspace, m: nat -> byte)
    requires vms.Valid()
    ensures vms.tables.Shaped() && (Reflects(vms.tables, vms.backed, m) <==> Seen(vms, m))
  {
    hide Vmspace.Valid, ByteIn, AddressSpace.Walk, AddressSpace.View, AddressSpace.DataPage;
    vms.SpaceFacts();
    forall u: word | u / 4096 in vms.backed
      ensures vms.tables.DataPage(u / 4096) && u / 4096 < FRAMES && vms.tables.Walk(u, false).Some?
      ensures vms.tables.words[vms.tables.Walk(u, false).value] == vms.tables.View(u / 4096).data[u % 4096 / 4]
    {
      vms.BackedData(u / 4096);
      LoadSees(vms, u);
    }
  }

  /** The bytes of one word are reached at one place. */
  lemma {:induction false} SameWord(vms: Vmspace, u: word, x: word)
    requires vms.Valid() && x / 4096 in vms.backed && u / 4 == x / 4 && vms.tables.Walk(x, true).Some?
    ensures u / 4096 == x / 4096 && vms.tables.Walk(u, false) == vms.tables.Walk(x, true)
  {
    hide Vmspace.Valid, AddressSpace.Walk, AddressSpace.Mapping;
    WordInPage(u);
    WordInPage(x);
    assert u / 4096 == x / 4096 && u % 4096 / 4 == x % 4096 / 4;
    LoadSees(vms, u);
    vms.BackedWord(u, false);
    vms.BackedWord(x, true);
  }

  /** A byte stored through the MMU: flat memory changes at that byte, and reflects physical memory as before. */
  method StoreByte(vms: Vmspace, x: word, b: byte, ghost m: nat -> byte)
    requires vms.Valid() && x / 4096 in vms.backed && vms.tables.Walk(x, true).Some?
    requires Reflects(vms.tables, vms.backed, m)
    modifies vms.tables.words
    ensures vms.Valid() && vms.Abs() == old(vms.Abs())
    ensures forall u: word, write: bool :: vms.tables.Walk(u, write) == old(vms.tables.Walk(u, write))
    ensures Reflects(vms.tables, vms.backed, Poke(m, x, b))
  {
    hide Pmm.Valid, Pmm.Stock, Buddy.Valid, AddressSpace.Valid, Vmspace.Tabled, Isolated, Vmspace.FramesFit, ByteIn,
      WithByte, AddressSpace.Walk, AddressSpace.View, AddressSpace.DataPage, Reflects, AddressSpace.Mapping;
    SeenIff(vms, m);
    LoadSees(vms, x);
    SameWord(vms, x, x);
    ghost var tables := vms.tables;
    forall u: word | u / 4 == x / 4
      ensures u / 4096 == x / 4096 && tables.Walk(u, false) == tables.Walk(x, true)
    {
      SameWord(vms, u, x);
    }
    var w := vms.tables.Load(x);
    vms.StoreBacked(x, WithByte(w, x % 4, b));
    ghost var m' := Poke(m, x, b);
    forall u: word | u / 4096 in vms.backed
      ensures tables.Walk(u, false).Some? && m'(u) == ByteIn(tables.words[tables.Walk(u, false).value], u % 4)
    {
      StoredByte(w, x % 4, b, u % 4);
      if u / 4 == x / 4 && u % 4 == x % 4 { assert u == x; }
    }
    SeenIff(vms, m');
  }

  lemma {:induction false} ReflectsSame(tables: AddressSpace, pages: set<nat>, m: nat -> byte, m': nat -> byte)
    requires tables.Shaped() && Reflects(tables, pages, m) && forall x: nat :: m'(x) == m(x)
    ensures Reflects(tables, pages, m')
  {
    hide ByteIn, AddressSpace.View, AddressSpace.DataPage;
  }

  /** The bytes lie on backed pages that may be written. */
  ghost predicate Open(vms: Vmspace, at: nat, n: nat)
    requires vms.tables.Shaped()
    reads vms, vms.tables.words
  {
    at + n <= 0x1_0000_0000 &&
    forall x: word :: at <= x < at + n ==> x / 4096 in vms.backed && vms.tables.Walk(x, true).Some?
  }

  /** Several bytes stored, as a header or a client's write. */
  method StoreBytes(vms: Vmspace, at: nat, bs: seq<byte>, ghost m: nat -> byte)
    requires vms.Valid() && Open(vms, at, |bs|) && Reflects(vms.tables, vms.backed, m)
    modifies vms.tables.words
    ensures vms.Valid() && vms.Abs() == old(vms.Abs())
    ensures Reflects(vms.tables, vms.backed, Copied(m, at, bs))
  {
    hide Vmspace.Valid, ByteIn, AddressSpace.Walk, AddressSpace.View,
      AddressSpace.DataPage, Reflects, AddressSpace.Mapping, Pmm.Stock, Shifted;
    vms.SpaceFacts();
    ReflectsSame(vms.tables, vms.backed, m, Copied(m, at, []));
    for i := 0 to |bs|
      invariant vms.Valid() && vms.Abs() == old(vms.Abs())
      invariant forall u: word, write: bool :: vms.tables.Walk(u, write) == old(vms.tables.Walk(u, write))
      invariant Reflects(vms.tables, vms.backed, Copied(m, at, bs[..i]))
    {
      ghost var before := Copied(m, at, bs[..i]);
      StoreByte(vms, at + i, bs[i], before);
      ReflectsSame(vms.tables, vms.backed, Poke(before, at + i, bs[i]), Copied(m, at, bs[..i + 1]));
    }
    assert bs[..|bs|] == bs;
  }

  /** Every live block of a heap may be stored to, from its header to its last byte. */
  lemma {:induction false} LiveBlockOpen(heap: Heap, p: nat)
    requires heap.Valid() && p in heap.blocks
    ensures heap.vms.tables.Shaped() && Open(heap.vms, p, Pow2(heap.blocks[p]))
  {
    hide Separate, Heap.CachesValid, Headers, BigPlaced, Vmspace.Valid, Heap.CacheFor, AddressSpace.Walk,
      AddressSpace.Pte, Pow2;
    heap.BlockOpen(p);
    forall x: word | p <= x < p + Pow2(heap.blocks[p])
      ensures x / 4096 in heap.vms.backed
    {
      ByteWritable(heap.Now(), p, x);
      heap.vms.WritableBelow(x / 4096);
    }
  }

  /** And so may every byte of every slab, footer and bitmap included. */
  lemma {:induction false} LiveSlabOpen(cache: SlabCache, k: nat)
    requires cache.Valid() && k < |cache.slabs|
    ensures cache.vms.tables.Shaped() && Open(cache.vms, cache.slabs[k], 0x2000)
  {
    hide Vmspace.Valid, Vmspace.BlockInSpace, AddressSpace.Walk, AddressSpace.Pte, Fits, ObjectIn, Consistent, Distinct;
    var s := cache.slabs[k];
    CacheFacts(cache);
    SlabStarts(cache.slabs);
    assert Held(cache.vms, s, cache.vms.writable);
    SlabOpen(cache.vms, s);
    cache.vms.WritableBelow(s / PAGE);
    cache.vms.WritableBelow(s / PAGE + 1);
    forall x: word | s <= x < s + 0x2000
      ensures x / 4096 in cache.vms.backed
    {
      PageOfSlab(s, x);
    }
  }

  /** Flat memory with what physical memory holds on some more pages. */
  ghost function Adopted(tables: AddressSpace, pages: set<nat>, m: nat -> byte): nat -> byte
    requires tables.Shaped()
    reads tables.words
  {
    var bytes := map x: nat | x < 0x1_0000_0000 && x / 4096 in pages ::
      ByteIn(tables.View(x / 4096).data[x % 4096 / 4], x % 4);
    (x: nat) => if x in bytes then bytes[x] else m(x)
  }

  lemma {:induction false} AdoptedReflects(tables: AddressSpace, a: set<nat>, b: set<nat>, m: nat -> byte)
    requires tables.Shaped() && Reflects(tables, a, m) && forall r :: r in b ==> tables.DataPage(r)
    ensures Reflects(tables, a + b, Adopted(tables, b, m))
    ensures forall x: nat :: x / 4096 !in b ==> Adopted(tables, b, m)(x) == m(x)
  {
    hide ByteIn, AddressSpace.View, AddressSpace.DataPage;
  }

  /** vmspace_alloc leaves the bytes of the pages backed before as they are; m' adds what the new pages hold. */
  method TakePages(vms: Vmspace, sz: nat, flags: nat, ghost m: nat -> byte)
    returns (ok: bool, addr: nat, ghost m': nat -> byte)
    requires vms.Valid() && sz > 0 && sz % PAGE == 0 && Log2Roundup(sz / PAGE) <= MAX_ORDER && flags != 0
    requires Reflects(vms.tables, vms.backed, m)
    modifies vms.Repr()
    ensures ok <==> !old(Dry(vms.allocator, Log2Roundup(sz / PAGE))) && !old(Dry(vms.pmm.mid, Log2Roundup(sz / PAGE)))
    ensures ok ==> vms.Valid() && vms.backed == old(vms.backed) + Range(addr / PAGE, addr / PAGE + sz / PAGE)
    ensures ok ==> Reflects(vms.tables, vms.backed, m')
    ensures ok ==> forall x: nat :: x / 4096 in old(vms.backed) ==> m'(x) == m(x)
  {
    hide Pmm.Valid, Pmm.Stock, Buddy.Valid, AddressSpace.Valid, Vmspace.Tabled, Isolated,
      Vmspace.FramesFit, ByteIn, AddressSpace.View, AddressSpace.DataPage, AddressSpace.Mapping,
      Range, Dry, Log2Roundup, RangeMap, Shifted, Span, Adopted, CanAlloc;
    m' := m;
    ghost var s, n, tables := vms.Abs(), sz / PAGE, vms.tables;
    BackedPages(vms);
    ghost var p;
    ok, addr, p := vms.Alloc(sz, flags);
    if !ok || addr == NO_BLOCK {
      return false, 0, m;
    }
    ghost var q := addr / PAGE;
    NotBefore(s, q, p, n, flags);
    forall x: word | x / 4096 in old(vms.backed)
      ensures tables.DataPage(x / 4096) && m(x) == ByteIn(tables.View(x / 4096).data[x % 4096 / 4], x % 4)
    {
      assert tables.SameView(x / 4096);
    }
    assert Reflects(tables, old(vms.backed), m);
    BackedPages(vms);
    AdoptedReflects(tables, old(vms.backed), Range(q, q + n), m);
    m' := Adopted(tables, Range(q, q + n), m);
  }

  lemma {:induction false} BackedPages(vms: Vmspace)
    requires vms.Valid()
    ensures vms.tables.Shaped() && forall r :: r in vms.backed ==> vms.tables.DataPage(r)
  {
    hide Vmspace.Valid, AddressSpace.DataPage;
    vms.SpaceFacts();
    forall r | r in vms.backed
      ensures vms.tables.DataPage(r)
    {
      vms.BackedData(r);
    }
  }

  /** The pages of an allocation were not backed before. */
  lemma {:induction false} NotBefore(s: MemState, q: nat, p: nat, n: nat, flags: nat)
    requires Isolated(s) && n > 0 && CanAlloc(s, q, p, n)
    ensures Range(q, q + n) !! s.backed
    ensures AllocStep(s, q, p, n, flags).backed == s.backed + Range(q, q + n)
  {
    hide Range, RangeMap;
    FreshPages(s, q, n);
  }

  /** vmspace_free leaves the bytes of the pages that stay backed as they are. */
  method GivePages(vms: Vmspace, sz: nat, addr: nat, ghost m: nat -> byte)
    requires vms.Valid() && sz > 0 && sz % PAGE == 0 && Log2Roundup(sz / PAGE) <= MAX_ORDER
    requires vms.BlockInSpace(addr, sz / PAGE) && CanGive(vms.Abs(), addr / PAGE, sz / PAGE)
    requires Reflects(vms.tables, vms.backed, m)
    modifies vms.Repr()
    ensures vms.Valid() && vms.backed == old(vms.backed) - Range(addr / PAGE, addr / PAGE + sz / PAGE)
    ensures Reflects(vms.tables, vms.backed, m)
  {
    hide Pmm.Valid, Pmm.Stock, Buddy.Valid, AddressSpace.Valid, Vmspace.Tabled,
      Isolated, Vmspace.FramesFit, ByteIn, AddressSpace.View, AddressSpace.DataPage,
      AddressSpace.Mapping, Range, Log2Roundup, Shifted, Span, CanGive, Frames;
    ghost var tables := vms.tables;
    BackedPages(vms);
    GivenStep(vms.Abs(), addr / PAGE, sz / PAGE);
    vms.Free(sz, addr, true);
    forall x: word | x / 4096 in vms.backed
      ensures tables.DataPage(x / 4096) && m(x) == ByteIn(tables.View(x / 4096).data[x % 4096 / 4], x % 4)
    {
      assert tables.SameView(x / 4096);
    }
  }

  lemma {:induction false} GivenStep(s: MemState, q: nat, n: nat)
    requires Isolated(s) && CanGive(s, q, n)
    ensures Legal(s, GiveBacked(q, n)) && s.backed <= s.mapping.Keys
    ensures Apply(s, GiveBacked(q, n)).backed == s.backed - Range(q, q + n)
  {
    hide Range, Span, Frames;
  }
}
