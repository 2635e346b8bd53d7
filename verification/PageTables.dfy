/** 32-bit two-level paging through the recursive directory entry (arch/x86/vmm.c).

    Physical memory is an array of 32-bit words.  Virtual addresses are translated by the walk of
    section 4.3 of the Intel SDM, volume 3A, with CR4.PSE clear and CR0.WP set: the directory entry
    and the table entry must be present, and writable for a write. */
module PageTables {
  import opened Options
  import opened Arith
  import opened Banks
  import opened Buddies
  import opened PhysicalMemory

  type word = w: int | 0 <= w < 0x1_0000_0000

  const WORDS: nat := 0x4000_0000
  const FRAMES: nat := 0x10_0000
  /** RPDT_BASE: the directory entry that points at the directory. */
  const SELF: nat := 1023
  /** Entries from here up are reserved for reaching directories. */
  const RESERVED: nat := 1022

  // ---------- addresses ----------

  /** PAGE_TABLE_ENTRY(RPDT_BASE, v). */
  function PageTableEntry(v: word): word { SELF * 0x40_0000 + (v / 4096) * 4 }

  /** PAGE_DIR_ENTRY(RPDT_BASE, v). */
  function PageDirEntry(v: word): word { SELF * 0x40_0000 + SELF * 4096 + (v / 0x40_0000) * 4 }

  // ---------- entries ----------

  predicate Bit0(e: nat) { e % 2 == 1 }

  predicate Bit1(e: nat) { (e / 2) % 2 == 1 }

  predicate Bit2(e: nat) { (e / 4) % 2 == 1 }

  predicate Bit3(e: nat) { (e / 8) % 2 == 1 }

  predicate Bit9(e: nat) { (e / 0x200) % 2 == 1 }

  predicate Bit10(e: nat) { (e / 0x400) % 2 == 1 }

  /** X86_PRESENT. */
  predicate Present(e: nat) { Bit0(e) }

  /** X86_WRITE. */
  predicate Writable(e: nat) { Bit1(e) }

  function Frame(e: word): (f: nat)
    ensures f < FRAMES
  {
    e / 4096
  }

  function Weight(c: bool, w: nat): nat { if c then w else 0 }

  /** from_x86_flags: X86_WRITE 2, X86_EXECUTE 0x200, X86_USER 4, X86_COW 0x400 to
      PAGE_WRITE 1, PAGE_EXECUTE 2, PAGE_USER 4, PAGE_COW 8. */
  function FromX86(e: nat): nat {
    Weight(Bit1(e), 1) + Weight(Bit9(e), 2) + Weight(Bit2(e), 4) + Weight(Bit10(e), 8)
  }

  /** to_x86_flags. */
  function ToX86(f: nat): nat {
    Weight(Bit0(f), 2) + Weight(Bit2(f), 4) + Weight(Bit1(f), 0x200) + Weight(Bit3(f), 0x400)
  }

  /** A page marked copy-on-write loses its write permission. */
  function CowFlags(f: nat): nat { if Bit3(f) && Bit0(f) then f - 1 else f }

  /** An entry from its upper twenty and lower twelve bits. */
  function Compose(frame: nat, low: nat): (e: word)
    requires frame < FRAMES && low < 4096
    ensures e / 4096 == frame && e % 4096 == low
  {
    frame * 4096 + low
  }

  /** to_x86_flags(flags) | X86_PRESENT, with WRITE dropped under COW. */
  function EntryLow(flags: nat): (low: nat)
    ensures low < 4096
  {
    ToX86(CowFlags(flags)) + 1
  }

  /** (p & 0xFFFFF000) | to_x86_flags(flags) | X86_PRESENT. */
  function NewEntry(p: nat, flags: nat): word { Compose((p % 0x1_0000_0000) / 4096, EntryLow(flags)) }

  /** What a present entry says: the frame, and the kernel's flags. */
  datatype Target = Target(frame: nat, flags: nat)

  datatype PageView = PageView(entry: word, data: seq<word>)

  function Decode(e: word): Target { Target(Frame(e), FromX86(e % 4096)) }

  lemma LowBits(f: nat)
    ensures f % 16 == Weight(Bit0(f), 1) + Weight(Bit1(f), 2) + Weight(Bit2(f), 4) + Weight(Bit3(f), 8)
  {
    Halving(f);
    var b0, b1, b2, b3 := f % 2, (f / 2) % 2, (f / 4) % 2, (f / 8) % 2;
    assert f == 16 * (f / 16) + 8 * b3 + 4 * b2 + 2 * b1 + b0;
  }

  lemma Halving(f: nat)
    ensures f == 2 * (f / 2) + f % 2
    ensures f / 2 == 2 * (f / 4) + (f / 2) % 2
    ensures f / 4 == 2 * (f / 8) + (f / 4) % 2
    ensures f / 8 == 2 * (f / 16) + (f / 8) % 2
  {
    assert f / 4 == (f / 2) / 2;
    assert f / 8 == (f / 4) / 2;
    assert f / 16 == (f / 8) / 2;
  }

  lemma X86Bits(w: bool, u: bool, x: bool, c: bool)
    ensures var e := Weight(w, 2) + Weight(u, 4) + Weight(x, 0x200) + Weight(c, 0x400) + 1;
            Bit0(e) && Bit1(e) == w && Bit2(e) == u && Bit9(e) == x && Bit10(e) == c && e < 4096
  {
  }

  /** get_mapping returns what map wrote: the frame, and the four flags with WRITE dropped under COW. */
  lemma EntryRoundTrip(p: nat, flags: nat)
    ensures Present(NewEntry(p, flags))
    ensures Decode(NewEntry(p, flags)) == TargetOf(p, flags)
  {
    var f := CowFlags(flags);
    X86Bits(Bit0(f), Bit2(f), Bit1(f), Bit3(f));
    LowBits(f);
    LowBitsOnly(NewEntry(p, flags));
  }

  lemma LowBitsOnly(e: nat)
    ensures Present(e) <==> Present(e % 4096)
    ensures Writable(e) <==> Writable(e % 4096)
  {
    var k, r := e / 4096, e % 4096;
    Quotient(r, 2, r / 2, r % 2);
    Quotient(e, 2, 2048 * k + r / 2, r % 2);
    Quotient(e / 2, 2, 1024 * k + r / 2 / 2, r / 2 % 2);
  }

  /** The bits of the flags map records: PAGE_WRITE is 1, unless PAGE_COW, 8, is there too; PAGE_EXECUTE is 2 and
      PAGE_USER 4. */
  lemma {:induction false} TargetBits(p: nat, flags: nat)
    ensures var t := TargetOf(p, flags);
            && t.flags < 16
            && (t.flags % 2 == 1 <==> flags % 2 == 1 && flags / 8 % 2 == 0)
            && t.flags / 2 % 2 == flags / 2 % 2 && t.flags / 4 % 2 == flags / 4 % 2 && t.flags / 8 % 2 == flags / 8 % 2
  {
    var f := CowFlags(flags);
    CowBits(flags);
    LowBits(f);
    FourBits(Bit0(f), Bit1(f), Bit2(f), Bit3(f));
  }

  lemma {:induction false} CowBits(f: nat)
    ensures Bit0(CowFlags(f)) <==> Bit0(f) && !Bit3(f)
    ensures Bit1(CowFlags(f)) == Bit1(f) && Bit2(CowFlags(f)) == Bit2(f) && Bit3(CowFlags(f)) == Bit3(f)
  {
    if Bit3(f) && Bit0(f) {
      var h := f / 2;
      Quotient(f, 2, h, 1);
      Quotient(f - 1, 2, h, 0);
      Quarters(f);
      Quarters(f - 1);
    }
  }

  lemma {:induction false} Quarters(f: nat)
    ensures f / 4 == f / 2 / 2 && f / 8 == f / 2 / 2 / 2
  {
  }

  lemma {:induction false} FourBits(b0: bool, b1: bool, b2: bool, b3: bool)
    ensures var f := Weight(b0, 1) + Weight(b1, 2) + Weight(b2, 4) + Weight(b3, 8);
            Bit0(f) == b0 && Bit1(f) == b1 && Bit2(f) == b2 && Bit3(f) == b3 && f < 16
  {
  }

  /** What get_mapping reports of an entry: WRITE is bit 1 of it, EXECUTE bit 9, USER bit 2, COW bit 10. */
  lemma {:induction false} DecodeBits(e: word)
    ensures var t := Decode(e);
            && t.frame == e / 4096 && t.flags < 16
            && (t.flags % 2 == 1 <==> e / 2 % 2 == 1) && (t.flags / 2 % 2 == 1 <==> e / 0x200 % 2 == 1)
            && (t.flags / 4 % 2 == 1 <==> e / 4 % 2 == 1) && (t.flags / 8 % 2 == 1 <==> e / 0x400 % 2 == 1)
  {
    var low := e % 4096;
    FourBits(Bit1(low), Bit9(low), Bit2(low), Bit10(low));
    LowDigit(e, 2, 1024);
    LowDigit(e, 4, 512);
    LowDigit(e, 0x200, 4);
    LowDigit(e, 0x400, 2);
  }

  /** A binary digit below the twelfth does not depend on the upper ones. */
  lemma {:induction false} LowDigit(e: nat, d: nat, k: nat)
    requires d > 0 && d * 2 * k == 4096
    ensures e % 4096 / d % 2 == e / d % 2
  {
    var q, r := e / 4096, e % 4096;
    var a, b := r / d, r % d;
    assert r == d * a + b;
    assert e == d * (2 * (k * q) + a) + b by {
      assert d * (2 * (k * q) + a) == d * 2 * k * q + d * a;
    }
    Quotient(e, d, 2 * (k * q) + a, b);
    Quotient(2 * (k * q) + a, 2, k * q + a / 2, a % 2);
  }

  // ---------- walking ----------

  /** Directory entries whose tables this model describes: neither entry 0 nor 768, which share the
      boot table, nor the reserved ones. */
  predicate Managed(d: nat) { 0 < d < RESERVED && d != 768 }

  class AddressSpace {
    /** Physical memory, word by word. */
    const words: array<word>
    /** The frame of the page directory. */
    const dir: nat

    constructor (words: array<word>, dir: nat)
      ensures this.words == words && this.dir == dir
    {
      this.words, this.dir := words, dir;
    }

    predicate Shaped() { words.Length == WORDS && dir < FRAMES }

    /** Directory entry d, straight from physical memory. */
    function Pde(d: nat): word
      requires Shaped() && d < 1024
      reads words
    {
      words[dir * 1024 + d]
    }

    /** The physical word that holds the table entry of page q. */
    function PteSlot(q: nat): (i: nat)
      requires Shaped() && q < FRAMES
      reads words
      ensures i < WORDS
    {
      Frame(Pde(q / 1024)) * 1024 + q % 1024
    }

    /** The two-level walk: the physical word a virtual address reaches, or a fault. */
    function Walk(v: word, write: bool): (r: Option<nat>)
      requires Shaped()
      reads words
      ensures r.Some? ==> r.value < WORDS
    {
      var pde := Pde(v / 0x40_0000);
      if !Present(pde) || (write && !Writable(pde)) then None else
      var pte := words[Frame(pde) * 1024 + (v / 4096) % 1024];
      if !Present(pte) || (write && !Writable(pte)) then None else
      Some(Frame(pte) * 1024 + (v % 4096) / 4)
    }

    /** The last directory entry points at the directory itself. */
    predicate Recursive()
      requires Shaped()
      reads words
    {
      Present(Pde(SELF)) && Writable(Pde(SELF)) && Frame(Pde(SELF)) == dir
    }

    /** PAGE_DIR_ENTRY reaches the directory entry of every address. */
    lemma {:induction false} WalkToPde(v: word, write: bool)
      requires Shaped() && Recursive()
      ensures Walk(PageDirEntry(v), write) == Some(dir * 1024 + v / 0x40_0000)
    {
      DirEntryParts(v);
    }

    /** PAGE_TABLE_ENTRY reaches the table entry of every address whose table is present. */
    lemma {:induction false} WalkToPte(v: word, write: bool)
      requires Shaped() && Recursive()
      requires Present(Pde(v / 0x40_0000)) && (write ==> Writable(Pde(v / 0x40_0000)))
      ensures Walk(PageTableEntry(v), write) == Some(PteSlot(v / 4096))
    {
      TableEntryParts(v);
    }

    /** A load through the MMU. */
    method Load(v: word) returns (w: word)
      requires Shaped() && Walk(v, false).Some?
      ensures w == words[Walk(v, false).value]
    {
      w := words[Walk(v, false).value];
    }

    /** A store through the MMU. */
    method Store(v: word, w: word)
      requires Shaped() && Walk(v, true).Some?
      modifies words
      ensures words[old(Walk(v, true)).value] == w
      ensures forall i :: 0 <= i < WORDS && i != old(Walk(v, true)).value ==> words[i] == old(words[i])
    {
      words[Walk(v, true).value] := w;
    }

    // ---------- the mapping ----------

    /** Tables are writable and never shared, and none of them is the directory. */
    ghost predicate Unshared()
      requires Shaped()
      reads words
    {
      forall d: nat :: Managed(d) && Present(Pde(d)) ==>
        && Writable(Pde(d)) && Frame(Pde(d)) != dir
        && forall e: nat :: e < 1024 && e != d && Present(Pde(e)) ==> Frame(Pde(e)) != Frame(Pde(d))
    }

    twostate predicate SameDirectory()
      requires Shaped()
      reads words
    {
      forall d: nat :: d < 1024 ==> Pde(d) == old(Pde(d))
    }

    ghost predicate Valid()
      reads words
    {
      Shaped() && Recursive() && Unshared()
    }

    /** No table, and not the directory, lies in a free frame. */
    ghost predicate TablesTaken(stock: set<nat>)
      requires Shaped()
      reads words
    {
      forall d: nat :: d < 1024 && Present(Pde(d)) ==> Frame(Pde(d)) !in stock
    }

    predicate Mapped(q: nat)
      requires Shaped() && q < FRAMES
      reads words
    {
      Present(Pde(q / 1024)) && Present(words[PteSlot(q)])
    }

    /** The partial map from managed pages to frames and flags that the tables represent. */
    ghost function Mapping(): map<nat, Target>
      requires Shaped()
      reads words
    {
      map q: nat | q < FRAMES && Managed(q / 1024) && Mapped(q) :: Decode(words[PteSlot(q)])
    }

    /** The entry of a page. */
    function Pte(q: nat): word
      requires Shaped() && q < FRAMES
      reads words
    {
      words[PteSlot(q)]
    }

    /** What the represented map says is what the MMU does: a page can be read exactly when it is mapped, written
        exactly when it is mapped with WRITE, and the access goes to its frame; the USER bit is that of the entry. */
    lemma {:induction false} MappingWalk(x: word)
      requires Valid() && Managed(x / 4096 / 1024)
      ensures x / 4096 in Mapping() <==> Walk(x, false).Some?
      ensures x / 4096 in Mapping() ==>
                var t := Mapping()[x / 4096];
                && Walk(x, false).value == t.frame * 1024 + x % 4096 / 4
                && (Walk(x, true).Some? <==> t.flags % 2 == 1)
                && (Pte(x / 4096) / 4 % 2 == 1 <==> t.flags / 4 % 2 == 1)
    {
      hide Unshared, Recursive, Decode, Pde, Present;
      assert x / 0x40_0000 == x / 4096 / 1024;
      if Present(Pde(x / 4096 / 1024)) {
        TableWritable(x / 4096 / 1024);
        DecodeBits(Pte(x / 4096));
      }
    }

    /** A write goes where a read does. */
    lemma {:induction false} SameAccess(x: word)
      requires Shaped()
      ensures Walk(x, true).Some? ==> Walk(x, false) == Walk(x, true)
    {
    }

    /** The n pages from page q on are mapped to the frames from address p on, can be read, can be written exactly
        if PAGE_WRITE, 1, was given without PAGE_COW, 8, and are marked for user code exactly if PAGE_USER, 4, was. */
    ghost predicate Reaches(q: nat, p: nat, n: nat, flags: nat)
      requires Shaped()
      reads words
    {
      forall x: word :: q <= x / 4096 < q + n ==>
        && Walk(x, false) == Some((p + (x / 4096 - q) * 4096) % 0x1_0000_0000 / 4096 * 1024 + x % 4096 / 4)
        && (Walk(x, true).Some? <==> flags % 2 == 1 && flags / 8 % 2 == 0)
        && (Pte(x / 4096) / 4 % 2 == 1 <==> flags / 4 % 2 == 1)
    }

    lemma {:induction false} MappedReaches(q: nat, p: nat, n: nat, flags: nat)
      requires Valid() && AllManaged(q, n)
      requires forall r: nat :: q <= r < q + n ==> r in Mapping() && Mapping()[r] == TargetOf(p + (r - q) * 4096, flags)
      ensures Reaches(q, p, n, flags)
    {
      hide Unshared, Recursive, Mapping, Walk, TargetOf, Pde, PteSlot, Frame, Managed;
      forall x: word | q <= x / 4096 < q + n
        ensures Walk(x, false) == Some((p + (x / 4096 - q) * 4096) % 0x1_0000_0000 / 4096 * 1024 + x % 4096 / 4)
        ensures Walk(x, true).Some? <==> flags % 2 == 1 && flags / 8 % 2 == 0
        ensures Pte(x / 4096) / 4 % 2 == 1 <==> flags / 4 % 2 == 1
      {
        var a := p + (x / 4096 - q) * 4096;
        assert ManagedPage(x / 4096);
        MappingWalk(x);
        TargetBits(a, flags);
        TargetFrame(a, flags);
      }
    }

    /** No page can be written that is marked copy-on-write. */
    ghost predicate CowReadOnly()
      requires Shaped()
      reads words
    {
      forall q :: q in Mapping() ==> !(Mapping()[q].flags % 2 == 1 && Mapping()[q].flags / 8 % 2 == 1)
    }

    /** get_mapping: exactly the represented map. */
    method GetMapping(v: word) returns (r: Option<Target>)
      requires Valid()
      ensures r.Some? ==> (r.value.flags % 2 == 1 <==> Pte(v / 4096) / 2 % 2 == 1) && r.value.flags < 16
      ensures r.Some? && Managed(v / 4096 / 1024) ==>
                && (r.value.flags % 2 == 1 <==> Walk(v, true).Some?)
                && Walk(v, false) == Some(r.value.frame * 1024 + v % 4096 / 4)
                && (CowReadOnly() ==> !(r.value.flags % 2 == 1 && r.value.flags / 8 % 2 == 1))
      ensures r.Some? <==> Mapped(v / 4096)
      ensures r.Some? ==> r.value == Decode(words[PteSlot(v / 4096)])
      ensures Managed(v / 4096 / 1024) ==>
                r == if v / 4096 in Mapping() then Some(Mapping()[v / 4096]) else None
    {
      hide Walk, PageTableEntry, PageDirEntry, Frame, Present, Unshared, FromX86;
      WalkToPde(v, false);
      TableEntryParts(v);
      var pde := Load(PageDirEntry(v));
      if !Present(pde) {
        return None;
      }
      WalkToPte(v, false);
      var pte := Load(PageTableEntry(v));
      if !Present(pte) {
        return None;
      }
      r := Some(Decode(pte));
      DecodeBits(pte);
      if Managed(v / 4096 / 1024) { MappingWalk(v); }
    }

    lemma {:induction false} TableWritable(d: nat)
      requires Valid() && Managed(d) && Present(Pde(d))
      ensures Writable(Pde(d))
    {
    }

    /** A mapped page whose frame holds neither the directory nor a table. */
    ghost predicate DataPage(r: nat): (b: bool)
      requires Shaped()
      reads words
      ensures b ==> r < FRAMES
    {
      && r < FRAMES && Managed(r / 1024) && Mapped(r)
      && forall d: nat :: d < 1024 && Present(Pde(d)) ==> Frame(Pde(d)) != Frame(words[PteSlot(r)])
    }

    /** A page as a program sees it: its entry, and the words of its frame. */
    function View(r: nat): (v: PageView)
      requires Shaped() && r < FRAMES
      reads words
      ensures |v.data| == 1024
    {
      var e := words[PteSlot(r)];
      PageView(e, words[Frame(e) * 1024..Frame(e) * 1024 + 1024])
    }

    /** The page is a data page still, and looks the same. */
    twostate predicate SameView(r: nat)
      requires Shaped()
      reads words
    {
      DataPage(r) && r < FRAMES && View(r) == old(View(r))
    }

    /** Data pages other than those from q up to q + n look the same. */
    twostate predicate OthersLookSame(q: nat, n: nat)
      requires Shaped()
      reads words
    {
      forall r: nat :: old(DataPage(r)) && !(q <= r < q + n) ==> SameView(r)
    }

    /** Nothing written, nothing looks different. */
    twostate lemma {:induction false} WordsKept()
      requires Shaped() && forall i :: 0 <= i < WORDS ==> words[i] == old(words[i])
      ensures OthersLookSame(0, 0)
    {
      hide Frame, Present, Managed;
      assert forall d: nat :: d < 1024 ==> Pde(d) == old(Pde(d));
      forall r: nat | old(DataPage(r))
        ensures SameView(r)
      {
        assert PteSlot(r) == old(PteSlot(r));
        var f := Frame(words[PteSlot(r)]);
        assert words[f * 1024..f * 1024 + 1024] == old(words[f * 1024..f * 1024 + 1024]);
      }
    }

    /** Different pages have their entries in different words. */
    lemma {:induction false} SlotsDiffer(q: nat, r: nat)
      requires Valid() && q < FRAMES && r < FRAMES && q != r
      requires Managed(q / 1024) && Present(Pde(q / 1024)) && Present(Pde(r / 1024))
      ensures PteSlot(q) != PteSlot(r)
    {
      hide Frame, Present, Writable;
      assert q == 1024 * (q / 1024) + q % 1024 && r == 1024 * (r / 1024) + r % 1024;
    }

    /** Writing one table entry of a managed page leaves the directory alone. */
    twostate lemma {:induction false} DirectoryKept(q: nat)
      requires old(Valid()) && q < FRAMES && Managed(q / 1024) && old(Present(Pde(q / 1024)))
      requires forall i :: 0 <= i < WORDS && i != old(PteSlot(q)) ==> words[i] == old(words[i])
      ensures Valid()
      ensures SameDirectory()
      ensures forall r: nat :: r < FRAMES ==> PteSlot(r) == old(PteSlot(r))
    {
      hide Frame, Present, Writable, Decode;
      forall d: nat | d < 1024
        ensures Pde(d) == old(Pde(d))
      {
        assert dir * 1024 + d != old(PteSlot(q));
      }
      forall d: nat | Managed(d) && Present(Pde(d))
        ensures Writable(Pde(d)) && Frame(Pde(d)) != dir
        ensures forall e: nat :: e < 1024 && e != d && Present(Pde(e)) ==> Frame(Pde(e)) != Frame(Pde(d))
      {
        assert Pde(d) == old(Pde(d));
      }
    }

    /** Writing one table entry of a managed page changes the mapping at that page only. */
    twostate lemma {:induction false} OneEntry(q: nat)
      requires old(Valid()) && q < FRAMES && Managed(q / 1024) && old(Present(Pde(q / 1024)))
      requires forall i :: 0 <= i < WORDS && i != old(PteSlot(q)) ==> words[i] == old(words[i])
      ensures Valid() && PteSlot(q) == old(PteSlot(q))
      ensures SameDirectory()
      ensures Mapping() == if Present(words[PteSlot(q)]) then old(Mapping())[q := Decode(words[PteSlot(q)])]
                           else old(Mapping()) - {q}
      ensures OthersLookSame(q, 1)
    {
      hide Frame, Present, Writable, Decode, Pde, PteSlot, Unshared, Recursive;
      DirectoryKept(q);
      ViewsKept(q);
      forall r: nat | r < FRAMES && Managed(r / 1024) && r != q
        ensures Mapped(r) <==> old(Mapped(r))
        ensures Mapped(r) ==> words[PteSlot(r)] == old(words[PteSlot(r)])
      {
        assert Pde(r / 1024) == old(Pde(r / 1024));
        if Present(Pde(r / 1024)) { SlotsDiffer(q, r); }
      }
    }

    /** Writing one table entry leaves the data pages other than its own as they look. */
    twostate lemma {:induction false} ViewsKept(q: nat)
      requires old(Valid()) && q < FRAMES && Managed(q / 1024) && old(Present(Pde(q / 1024)))
      requires forall i :: 0 <= i < WORDS && i != old(PteSlot(q)) ==> words[i] == old(words[i])
      requires Valid() && SameDirectory() && forall r: nat :: r < FRAMES ==> PteSlot(r) == old(PteSlot(r))
      ensures OthersLookSame(q, 1)
    {
      hide Frame, Present, Writable, Decode, Unshared, Recursive;
      forall r: nat | old(DataPage(r)) && r != q
        ensures SameView(r)
      {
        SlotsDiffer(q, r);
        var f := Frame(words[PteSlot(r)]);
        forall i | f * 1024 <= i < f * 1024 + 1024
          ensures words[i] == old(words[i])
        {
          assert Frame(Pde(q / 1024)) != f;
        }
        assert words[f * 1024..f * 1024 + 1024] == old(words[f * 1024..f * 1024 + 1024]);
      }
    }

    /** unmap_one_page: fails (the kernel stops) unless the page is mapped. */
    method UnmapOnePage(v: word) returns (ok: bool)
      requires Valid() && Managed(v / 4096 / 1024)
      modifies words
      ensures Valid()
      ensures ok <==> v / 4096 in old(Mapping())
      ensures Mapping() == old(Mapping()) - {v / 4096}
      ensures Walk(v, false).None? && (old(CowReadOnly()) ==> CowReadOnly())
      ensures SameDirectory() && OthersLookSame(v / 4096, 1)
    {
      hide Frame, Writable, Decode, PageTableEntry, PageDirEntry, Walk, Unshared;
      WalkToPde(v, false);
      TableEntryParts(v);
      var pde := Load(PageDirEntry(v));
      MappingWalk(v);
      if !Present(pde) {
        return false;
      }
      TableWritable(v / 0x40_0000);
      WalkToPte(v, false);
      WalkToPte(v, true);
      var pte := Load(PageTableEntry(v));
      if !Present(pte) {
        return false;
      }
      Store(PageTableEntry(v), 0);
      OneEntry(v / 4096);
      MappingWalk(v);
      ok := true;
    }

    // ---------- new tables ----------

    /** Writes to a frame that holds neither the directory nor a table change no translation. */
    twostate lemma {:induction false} FrameWritten(f: nat)
      requires old(Valid()) && f < FRAMES
      requires forall d: nat :: d < 1024 && old(Present(Pde(d))) ==> old(Frame(Pde(d))) != f
      requires forall i :: 0 <= i < WORDS && !InFrame(i, f) ==> words[i] == old(words[i])
      ensures Valid() && SameDirectory() && Mapping() == old(Mapping())
      ensures forall u: word, write: bool :: Walk(u, write) == old(Walk(u, write))
    {
      hide Frame, Present, Writable, Decode;
      forall d: nat | d < 1024
        ensures Pde(d) == old(Pde(d))
      {
        assert !InFrame(dir * 1024 + d, f);
      }
      forall q: nat | q < FRAMES && Present(Pde(q / 1024))
        ensures words[PteSlot(q)] == old(words[PteSlot(q)])
      {
        assert !InFrame(PteSlot(q), f);
      }
      forall u: word, write: bool
        ensures Walk(u, write) == old(Walk(u, write))
      {
        assert u / 0x40_0000 == u / 4096 / 1024;
        assert Present(Pde(u / 4096 / 1024)) ==> words[PteSlot(u / 4096)] == old(words[PteSlot(u / 4096)]);
      }
    }

    /** The first n words of a frame are zero. */
    ghost predicate Blank(f: nat, n: nat)
      requires Shaped() && f < FRAMES && n <= 1024
      reads words
    {
      forall i :: f * 1024 <= i < f * 1024 + n ==> words[i] == 0
    }

    /** The zeroing of a fresh table, through the recursive entry. */
    method ZeroTable(v: word)
      requires Shaped() && Recursive() && v / 0x40_0000 < RESERVED
      requires Present(Pde(v / 0x40_0000)) && Writable(Pde(v / 0x40_0000)) && Frame(Pde(v / 0x40_0000)) != dir
      modifies words
      ensures Blank(old(Frame(Pde(v / 0x40_0000))), 1024)
      ensures forall i :: 0 <= i < WORDS && !InFrame(i, old(Frame(Pde(v / 0x40_0000)))) ==> words[i] == old(words[i])
    {
      hide Frame, Present, Writable, Walk, PageTableEntry;
      var base := v / 0x40_0000 * 0x40_0000;
      ghost var d := v / 0x40_0000;
      ghost var f := Frame(Pde(d));
      for t := 0 to 1024
        invariant Blank(f, t)
        invariant forall i :: 0 <= i < WORDS && !InFrame(i, f) ==> words[i] == old(words[i])
        invariant Pde(SELF) == old(Pde(SELF)) && Pde(d) == old(Pde(d))
      {
        TableStep(v, t);
        WalkToPte(base + 4096 * t, true);
        Store(PageTableEntry(base) + 4 * t, 0);
        assert !InFrame(dir * 1024 + SELF, f) && !InFrame(dir * 1024 + d, f);
      }
    }

    /** A new, empty table in an unused frame leaves the mapping as it was. */
    twostate lemma {:induction false} NewTable(d: nat)
      requires old(Valid()) && Managed(d) && !old(Present(Pde(d)))
      requires Present(Pde(d)) && Writable(Pde(d)) && Blank(Frame(Pde(d)), 1024)
      requires forall e: nat :: e < 1024 && old(Present(Pde(e))) ==> old(Frame(Pde(e))) != Frame(Pde(d))
      requires forall i :: 0 <= i < WORDS && !InFrame(i, Frame(Pde(d))) && i != dir * 1024 + d ==>
                 words[i] == old(words[i])
      ensures Valid() && Mapping() == old(Mapping())
      ensures forall e: nat :: e < 1024 && e != d ==> Pde(e) == old(Pde(e))
    {
      var f := Frame(Pde(d));
      hide Frame, Writable, Decode;
      assert old(Frame(Pde(SELF))) == dir && dir != f;
      forall e: nat | e < 1024 && e != d
        ensures Pde(e) == old(Pde(e))
      {
        assert !InFrame(dir * 1024 + e, f);
      }
      forall r: nat | r < FRAMES && Managed(r / 1024)
        ensures Mapped(r) <==> old(Mapped(r))
        ensures Mapped(r) ==> words[PteSlot(r)] == old(words[PteSlot(r)])
      {
        if r / 1024 == d {
          assert words[PteSlot(r)] == 0;
        } else if Present(Pde(r / 1024)) {
          assert !InFrame(PteSlot(r), f);
        }
      }
    }

    /** A directory entry for an unused frame, and the new table cleared. */
    method InstallTable(v: word, f: nat, low: nat)
      requires Valid() && Managed(v / 0x40_0000) && !Present(Pde(v / 0x40_0000)) && f < FRAMES
      requires low == 3 || low == 7
      requires forall e: nat :: e < 1024 && Present(Pde(e)) ==> Frame(Pde(e)) != f
      modifies words
      ensures Valid() && Mapping() == old(Mapping())
      ensures Pde(v / 0x40_0000) == Compose(f, low) && Present(Pde(v / 0x40_0000)) && Frame(Pde(v / 0x40_0000)) == f
      ensures forall e: nat :: e < 1024 && e != v / 0x40_0000 ==> Pde(e) == old(Pde(e))
    {
      hide Walk, PageTableEntry, PageDirEntry, Unshared, Mapping;
      ghost var d := v / 0x40_0000;
      WalkToPde(v, true);
      assert Frame(Pde(SELF)) != f;
      Store(PageDirEntry(v), Compose(f, low));
      TableFlags(f, low);
      assert Pde(d) == Compose(f, low) && Pde(SELF) == old(Pde(SELF));
      ZeroTable(v);
      assert !InFrame(dir * 1024 + d, f);
      NewTable(d);
    }

    /** ensure_page_table_mapped: fails (the kernel stops) only when no frame is left. */
    method EnsureTable(pmm: Pmm, v: word) returns (ok: bool)
      requires Valid() && pmm.Valid() && words !in pmm.Repr()
      requires Managed(v / 0x40_0000) && TablesTaken(pmm.Stock())
      modifies words, pmm.Repr()
      ensures Valid() && pmm.Valid() && TablesTaken(pmm.Stock())
      ensures ok <==> old(Present(Pde(v / 0x40_0000))) || !old(Dry(pmm.mid, 0))
      ensures ok ==> Present(Pde(v / 0x40_0000))
      ensures ok && !old(Present(Pde(v / 0x40_0000))) ==>
                && Pde(v / 0x40_0000) % 4096 == 7 && Pde(v / 0x40_0000) / 4096 in old(pmm.Stock())
                && pmm.Stock() == old(pmm.Stock()) - {Pde(v / 0x40_0000) / 4096}
      ensures Mapping() == old(Mapping())
      ensures forall e: nat :: e < 1024 && old(Present(Pde(e))) ==> Pde(e) == old(Pde(e))
      ensures old(Present(Pde(v / 0x40_0000))) ==> pmm.SameZones() && SameDirectory() && OthersLookSame(0, 0)
      ensures pmm.Stock() <= old(pmm.Stock())
    {
      hide Frame, Walk, PageDirEntry, Pmm.Valid, Pmm.Stock, Unshared, Recursive, Mapping, Dry, BlockPages;
      WalkToPde(v, false);
      var pde := Load(PageDirEntry(v));
      if Present(pde) {
        return true;
      }
      Log2OfPow2(0);
      var p := pmm.AllocPages(Under4GB, 1);
      if p == NO_BLOCK {
        return false;
      }
      FrameOfPage(pmm, p);
      InstallTable(v, p / PAGE, 7);
      ok := true;
    }

    // ---------- mapping ----------

    /** map_one_page: fails (the kernel stops) if the page is mapped already or no table can be made. */
    method MapOnePage(pmm: Pmm, v: word, p: nat, flags: nat) returns (ok: bool)
      requires Valid() && pmm.Valid() && words !in pmm.Repr()
      requires Managed(v / 0x40_0000) && TablesTaken(pmm.Stock())
      modifies words, pmm.Repr()
      ensures Valid() && pmm.Valid() && TablesTaken(pmm.Stock())
      ensures ok <==> v / 4096 !in old(Mapping()) && (old(Present(Pde(v / 0x40_0000))) || !old(Dry(pmm.mid, 0)))
      ensures Mapping() == if ok then old(Mapping())[v / 4096 := TargetOf(p, flags)] else old(Mapping())
      ensures ok ==> Reaches(v / 4096, p, 1, flags)
      ensures old(CowReadOnly()) ==> CowReadOnly()
      ensures forall e: nat :: e < 1024 && old(Present(Pde(e))) ==> Pde(e) == old(Pde(e))
      ensures old(Present(Pde(v / 0x40_0000))) ==>
                pmm.SameZones() && SameDirectory() && OthersLookSame(v / 4096, 1)
      ensures pmm.Stock() <= old(pmm.Stock())
    {
      hide Frame, Pmm.Valid, Pmm.Stock, Unshared, Recursive, Dry, Decode, Present, DataPage, View, Mapping;
      TableEntryParts(v);
      ok := EnsureTable(pmm, v);
      if !ok {
        assert old(!Present(Pde(v / 4096 / 1024)));
        return;
      }
      ok := WriteMapping(v, p, flags);
    }

    /** The second half of map_one_page, once the table is there. */
    method WriteMapping(v: word, p: nat, flags: nat) returns (ok: bool)
      requires Valid() && Managed(v / 0x40_0000) && Present(Pde(v / 0x40_0000))
      modifies words
      ensures Valid() && SameDirectory() && OthersLookSame(v / 4096, 1)
      ensures ok <==> v / 4096 !in old(Mapping())
      ensures Mapping() == if ok then old(Mapping())[v / 4096 := TargetOf(p, flags)] else old(Mapping())
      ensures ok ==> Reaches(v / 4096, p, 1, flags)
      ensures old(CowReadOnly()) ==> CowReadOnly()
    {
      hide Frame, Walk, PageTableEntry, PageDirEntry, Unshared, Decode, NewEntry, Present;
      TableEntryParts(v);
      TableWritable(v / 0x40_0000);
      WalkToPte(v, false);
      WalkToPte(v, true);
      var pte := Load(PageTableEntry(v));
      if Present(pte) {
        return false;
      }
      EntryRoundTrip(p, flags);
      Store(PageTableEntry(v), NewEntry(p, flags));
      OneEntry(v / 4096);
      TargetBits(p, flags);
      MappedReaches(v / 4096, p, 1, flags);
      ok := true;
    }

    twostate lemma {:induction false} StillThere(r: nat)
      requires Shaped() && old(HasTable(r))
      requires forall e: nat :: e < 1024 && old(Present(Pde(e))) ==> Pde(e) == old(Pde(e))
      ensures r / 1024 < 1024 && Present(Pde(r / 1024))
    {
      hide Present, Pde;
    }

    /** map: all pages of the range, or a stop at the first that cannot be mapped. */
    method Map(pmm: Pmm, v: word, p: nat, n: nat, flags: nat) returns (ok: bool)
      requires Valid() && pmm.Valid() && words !in pmm.Repr() && TablesTaken(pmm.Stock())
      requires v + n * 4096 <= 0x1_0000_0000
      requires AllManaged(v / 4096, n)
      modifies words, pmm.Repr()
      ensures Valid() && pmm.Valid() && TablesTaken(pmm.Stock())
      ensures ok ==> Mapping() == old(Mapping()) + RangeMap(v / 4096, p, n, flags)
      ensures ok ==> old(Mapping()).Keys !! RangeMap(v / 4096, p, n, flags).Keys
      ensures ok ==> Reaches(v / 4096, p, n, flags)
      ensures old(CowReadOnly()) ==> CowReadOnly()
      ensures forall e: nat :: e < 1024 && old(Present(Pde(e))) ==> Pde(e) == old(Pde(e))
      ensures old(AllTables(v / 4096, n)) ==> pmm.SameZones() && SameDirectory() && OthersLookSame(v / 4096, n)
      ensures old(AllTables(v / 4096, n)) && old(Mapping()).Keys !! RangeMap(v / 4096, p, n, flags).Keys ==> ok
    {
      hide Pmm.Valid, Pmm.Stock, Pmm.Repr, Unshared, Recursive, Mapping, Dry,
        TargetOf, RangeMap, Present, Range, Pde, TablesTaken, HasTable, Managed, Walk, CowReadOnly, DataPage, View;
      ghost var q := v / 4096;
      for i := 0 to n
        invariant Valid() && pmm.Valid() && TablesTaken(pmm.Stock())
        invariant Mapping() == old(Mapping()) + RangeMap(q, p, i, flags)
        invariant old(Mapping()).Keys !! RangeMap(q, p, i, flags).Keys
        invariant old(CowReadOnly()) ==> CowReadOnly()
        invariant forall e: nat :: e < 1024 && old(Present(Pde(e))) ==> Pde(e) == old(Pde(e))
        invariant old(AllTables(q, n)) ==> pmm.SameZones() && SameDirectory() && OthersLookSame(q, n)
      {
        PageStep(v, i);
        assert ManagedPage(q + i);
        if old(AllTables(q, n)) {
          assert old(HasTable(q + i));
          StillThere(q + i);
        }
        RangeMapStep(old(Mapping()), q, p, i, flags);
        ok := MapOnePage(pmm, v + i * 4096, p + i * 4096, flags);
        if !ok {
          assert q + i in RangeMap(q, p, n, flags).Keys;
          return;
        }
      }
      MappedReaches(q, p, n, flags);
      ok := true;
    }

    /** unmap: all pages of the range, or a stop at the first that is not mapped. */
    method Unmap(v: word, n: nat) returns (ok: bool)
      requires Valid() && v + n * 4096 <= 0x1_0000_0000
      requires AllManaged(v / 4096, n)
      modifies words
      ensures Valid()
      ensures ok <==> Range(v / 4096, v / 4096 + n) <= old(Mapping()).Keys
      ensures ok ==> Mapping() == old(Mapping()) - Range(v / 4096, v / 4096 + n)
      ensures ok ==> forall x: word :: v / 4096 <= x / 4096 < v / 4096 + n ==> Walk(x, false).None?
      ensures old(CowReadOnly()) ==> CowReadOnly()
      ensures SameDirectory() && OthersLookSame(v / 4096, n)
    {
      hide Unshared, Recursive, Mapping, Walk, DataPage, View, Managed, CowReadOnly;
      ghost var q := v / 4096;
      for i := 0 to n
        invariant Valid()
        invariant Mapping() == old(Mapping()) - Range(q, q + i)
        invariant Range(q, q + i) <= old(Mapping()).Keys
        invariant old(CowReadOnly()) ==> CowReadOnly()
        invariant SameDirectory() && OthersLookSame(q, n)
      {
        PageStep(v, i);
        assert ManagedPage(q + i);
        ok := UnmapOnePage(v + i * 4096);
        if !ok {
          assert q + i in Range(q, q + n);
          return;
        }
      }
      forall x: word | q <= x / 4096 < q + n
        ensures Walk(x, false).None?
      {
        assert ManagedPage(x / 4096);
        MappingWalk(x);
      }
      ok := true;
    }

    /** Every table of a range of pages is there. */
    ghost predicate AllTables(q: nat, n: nat)
      requires Shaped()
      reads words
    {
      forall r: nat :: q <= r < q + n ==> HasTable(r)
    }

    predicate HasTable(r: nat)
      requires Shaped()
      reads words
    {
      r < FRAMES && Present(Pde(r / 1024))
    }
  }

  predicate ManagedPage(q: nat) { Managed(q / 1024) }

  ghost predicate AllManaged(q: nat, n: nat) { forall r: nat :: q <= r < q + n ==> ManagedPage(r) }

  /** The pages map records for a range, by number. */
  ghost function RangeMap(q: nat, p: nat, n: nat, flags: nat): (m: map<nat, Target>)
    ensures m.Keys == Range(q, q + n)
    ensures forall r :: r in m ==> m[r] == TargetOf(p + (r - q) * 4096, flags)
  {
    if n == 0 then map[] else RangeMap(q, p, n - 1, flags)[q + n - 1 := TargetOf(p + (n - 1) * 4096, flags)]
  }

  lemma {:induction false} RangeMapStep(m: map<nat, Target>, q: nat, p: nat, i: nat, flags: nat)
    ensures (m + RangeMap(q, p, i, flags))[q + i := TargetOf(p + i * 4096, flags)] == m + RangeMap(q, p, i + 1, flags)
    ensures RangeMap(q, p, i + 1, flags).Keys == RangeMap(q, p, i, flags).Keys + {q + i}
  {
    hide TargetOf;
  }

  lemma PageStep(v: word, i: nat)
    requires v + (i + 1) * 4096 <= 0x1_0000_0000
    ensures (v + i * 4096) / 4096 == v / 4096 + i
    ensures (v + i * 4096) / 0x40_0000 == (v / 4096 + i) / 1024
  {
    TableEntryParts(v + i * 4096);
  }

  /** What map records for a page: the low 32 bits of the address, and the flags under COW. */
  function TargetOf(p: nat, flags: nat): Target {
    Target(p % 0x1_0000_0000 / 4096, CowFlags(flags) % 16)
  }

  lemma {:induction false} TargetFrame(p: nat, flags: nat)
    ensures TargetOf(p, flags).frame == p % 0x1_0000_0000 / 4096
  {
  }

  predicate InFrame(i: int, f: nat) { f * 1024 <= i < f * 1024 + 1024 }

  /** One step of clearing a table. */
  lemma TableStep(v: word, t: nat)
    requires t < 1024
    ensures var base := v / 0x40_0000 * 0x40_0000;
            && base + 4096 * t < 0x1_0000_0000
            && PageTableEntry(base) + 4 * t == PageTableEntry(base + 4096 * t)
            && (base + 4096 * t) / 0x40_0000 == v / 0x40_0000
            && (base + 4096 * t) / 4096 == v / 0x40_0000 * 1024 + t
  {
    var d := v / 0x40_0000;
    var base := d * 0x40_0000;
    assert d < 1024 && base + 4096 * t == 4096 * (1024 * d + t);
    Quotient(base + 4096 * t, 4096, 1024 * d + t, 0);
    Quotient(base, 4096, 1024 * d, 0);
    Quotient(base + 4096 * t, 0x40_0000, d, 4096 * t);
  }

  /** p | X86_PRESENT | X86_WRITE, with or without X86_USER. */
  lemma TableFlags(f: nat, low: nat)
    requires f < FRAMES && (low == 3 || low == 7)
    ensures Present(Compose(f, low)) && Writable(Compose(f, low)) && Frame(Compose(f, low)) == f
  {
  }

  /** A page from the zone under 4GB has a 20-bit frame number. */
  lemma {:induction false} FrameOfPage(pmm: Pmm, p: nat)
    requires pmm.Placed() && Log2Roundup(1) == 0 && pmm.BlockOfZone(Under4GB, p, 1)
    ensures p / PAGE < FRAMES && BlockPages(p, 1) == {p / PAGE}
  {
  }

  /** The three fields of PAGE_DIR_ENTRY(1023, v). */
  lemma DirEntryParts(v: word)
    ensures PageDirEntry(v) / 0x40_0000 == SELF
    ensures (PageDirEntry(v) / 4096) % 1024 == SELF
    ensures (PageDirEntry(v) % 4096) / 4 == v / 0x40_0000
  {
    var d := v / 0x40_0000;
    var a := PageDirEntry(v);
    assert d < 1024 && a == 0x40_0000 * SELF + (4096 * SELF + 4 * d);
    assert a == 4096 * (1024 * SELF + SELF) + 4 * d;
  }

  /** The three fields of PAGE_TABLE_ENTRY(1023, v). */
  lemma TableEntryParts(v: word)
    ensures PageTableEntry(v) / 0x40_0000 == SELF
    ensures (PageTableEntry(v) / 4096) % 1024 == v / 0x40_0000
    ensures (PageTableEntry(v) % 4096) / 4 == (v / 4096) % 1024
    ensures v / 0x40_0000 == v / 4096 / 1024
  {
    var q := v / 4096;
    var d, t := q / 1024, q % 1024;
    var a := PageTableEntry(v);
    assert q == 1024 * d + t && d < 1024;
    assert d == v / 0x40_0000;
    assert a == 4096 * (1024 * SELF + d) + 4 * t;
    assert a == 0x40_0000 * SELF + (4096 * d + 4 * t);
    assert a / 4096 == 1024 * SELF + d;
  }
}
