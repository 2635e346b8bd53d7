/** Memory before and during the start of the physical memory manager (pmm.c): the early page
    allocator over the boot ranges, and the distribution of what is left to the three zones. */
module EarlyMemory {
  import opened Options
  import opened Arith
  import opened BuddyTheory
  import opened Banks
  import opened Buddies
  import opened PhysicalMemory

  /** The whole pages of a page-aligned range. */
  ghost function WholePages(r: MemRange): set<nat> { Range(r.start / PAGE, r.start / PAGE + r.extent / PAGE) }

  /** All whole pages of some ranges. */
  ghost function PagesOf(rs: seq<MemRange>): (s: set<nat>)
    ensures forall p :: p in s <==> exists i :: 0 <= i < |rs| && p in WholePages(rs[i])
  {
    if rs == [] then {} else
      var s := PagesOf(rs[..|rs| - 1]) + WholePages(rs[|rs| - 1]);
      s
  }

  /** Aligned, inside physical memory, and sharing no page. */
  ghost predicate Sound(rs: seq<MemRange>, maxExtent: nat) {
    && (forall i :: 0 <= i < |rs| ==> rs[i].start % PAGE == 0 && rs[i].start + rs[i].extent <= maxExtent)
    && (forall i, j :: 0 <= i < j < |rs| ==> WholePages(rs[i]) !! WholePages(rs[j]))
  }

  /** The page early_alloc_page takes from a range is its first. */
  function Shortened(r: MemRange): MemRange
    requires r.extent >= PAGE
  {
    MemRange(r.start + PAGE, r.extent - PAGE)
  }

  lemma {:induction false} TakeFirstPage(r: MemRange)
    requires r.start % PAGE == 0 && r.extent >= PAGE
    ensures r.start / PAGE in WholePages(r) && WholePages(Shortened(r)) == WholePages(r) - {r.start / PAGE}
  {
  }

  lemma {:induction false} ShortenedSound(rs: seq<MemRange>, i: nat, maxExtent: nat)
    requires Sound(rs, maxExtent) && i < |rs| && rs[i].extent >= PAGE
    ensures Sound(rs[i := Shortened(rs[i])], maxExtent)
    ensures rs[i].start % PAGE == 0 && rs[i].start / PAGE in PagesOf(rs)
    ensures PagesOf(rs[i := Shortened(rs[i])]) == PagesOf(rs) - {rs[i].start / PAGE}
  {
    hide WholePages;
    var rs', f := rs[i := Shortened(rs[i])], rs[i].start / PAGE;
    TakeFirstPage(rs[i]);
    forall j, k | 0 <= j < k < |rs'|
      ensures WholePages(rs'[j]) !! WholePages(rs'[k])
    {
      assert WholePages(rs'[j]) <= WholePages(rs[j]) && WholePages(rs'[k]) <= WholePages(rs[k]);
    }
    forall p
      ensures p in PagesOf(rs') <==> p in PagesOf(rs) && p != f
    {
      if p in PagesOf(rs) {
        var j :| 0 <= j < |rs| && p in WholePages(rs[j]);
        assert p != f ==> p in WholePages(rs'[j]);
        assert j != i ==> p != f;
      }
      if p in PagesOf(rs') {
        var j :| 0 <= j < |rs'| && p in WholePages(rs'[j]);
        assert p in WholePages(rs[j]);
        assert j != i ==> WholePages(rs[j]) !! WholePages(rs[i]);
      }
    }
  }

  // ---------- what the early allocator can give ----------

  /** Ranges early_alloc_page passes over. */
  predicate Skipped(r: MemRange) { r.extent <= PAGE || r.start >= GB4 || r.start < MB1 }

  /** The ranges after one call: the first range not passed over loses its first page. */
  function TakeOne(rs: seq<MemRange>): seq<MemRange> {
    if rs == [] then [] else
    if Skipped(rs[0]) then [rs[0]] + TakeOne(rs[1..]) else [Shortened(rs[0])] + rs[1..]
  }

  /** The ranges after some calls. */
  function TakeMany(rs: seq<MemRange>, calls: nat): seq<MemRange> {
    if calls == 0 then rs else TakeOne(TakeMany(rs, calls - 1))
  }

  /** How many pages a range gives before it is passed over. */
  function Givable(r: MemRange): nat
    decreases r.extent
  {
    if Skipped(r) then 0 else 1 + Givable(Shortened(r))
  }

  function AllGivable(rs: seq<MemRange>): nat {
    if rs == [] then 0 else Givable(rs[0]) + AllGivable(rs[1..])
  }

  /** Which pages of a range can be given, counted from its start: from 1MB up, those that start below 4GB and have
      something of the range behind them. */
  lemma {:induction false} GivableIff(r: MemRange, k: nat)
    ensures k < Givable(r) <==>
              r.start >= 0x10_0000 && k * 0x1000 + 0x1000 < r.extent && r.start + k * 0x1000 < 0x1_0000_0000
    decreases k
  {
    if !Skipped(r) && k > 0 {
      GivableIff(Shortened(r), k - 1);
    }
  }

  /** As a number. */
  lemma {:induction false} GivableClosed(r: MemRange)
    ensures Givable(r) ==
              if r.start < 0x10_0000 || r.extent == 0 || r.start >= 0x1_0000_0000 then 0
              else Least((r.extent - 1) / 0x1000, (0x1_0000_0000 - r.start + 0xFFF) / 0x1000)
  {
    GivableIff(r, Givable(r));
    if Givable(r) > 0 { GivableIff(r, Givable(r) - 1); }
  }

  function Least(a: nat, b: nat): nat { if a <= b then a else b }

  /** After some calls a range has lost at most that many pages, all from its start. */
  lemma {:induction false} TakeManyAt(rs: seq<MemRange>, calls: nat, i: nat) returns (lost: nat)
    requires i < |rs|
    ensures |TakeMany(rs, calls)| == |rs| && lost <= calls && lost * 0x1000 <= rs[i].extent
    ensures TakeMany(rs, calls)[i] == MemRange(rs[i].start + lost * 0x1000, rs[i].extent - lost * 0x1000)
  {
    hide TakeOne;
    lost := 0;
    if calls > 0 {
      lost := TakeManyAt(rs, calls - 1, i);
      var more := TakeOneLoses(TakeMany(rs, calls - 1), i);
      lost := lost + more;
    }
  }

  lemma {:induction false} TakeOneLoses(rs: seq<MemRange>, i: nat) returns (lost: nat)
    requires i < |rs|
    ensures |TakeOne(rs)| == |rs| && lost <= 1 && lost * 0x1000 <= rs[i].extent
    ensures TakeOne(rs)[i] == MemRange(rs[i].start + lost * 0x1000, rs[i].extent - lost * 0x1000)
    decreases i
  {
    if Skipped(rs[0]) {
      lost := 0;
      if i > 0 {
        lost := TakeOneLoses(rs[1..], i - 1);
      } else {
        TakeOneLength(rs[1..]);
      }
    } else {
      lost := if i == 0 then 1 else 0;
    }
  }

  lemma {:induction false} TakeOneLength(rs: seq<MemRange>)
    ensures |TakeOne(rs)| == |rs|
  {
    if rs != [] && Skipped(rs[0]) { TakeOneLength(rs[1..]); }
  }

  lemma {:induction false} AllGivableAtLeast(rs: seq<MemRange>, i: nat)
    requires i < |rs|
    ensures AllGivable(rs) >= Givable(rs[i])
  {
    if i > 0 { AllGivableAtLeast(rs[1..], i - 1); }
  }

  lemma {:induction false} NothingGivable(rs: seq<MemRange>)
    ensures AllGivable(rs) == 0 <==> forall i :: 0 <= i < |rs| ==> Skipped(rs[i])
  {
    hide Skipped;
    if rs != [] {
      NothingGivable(rs[1..]);
      assert (forall i :: 0 <= i < |rs| ==> Skipped(rs[i])) <==>
             Skipped(rs[0]) && forall i :: 0 <= i < |rs[1..]| ==> Skipped(rs[1..][i]) by {
        if Skipped(rs[0]) && forall i :: 0 <= i < |rs[1..]| ==> Skipped(rs[1..][i]) {
          forall i | 0 <= i < |rs| ensures Skipped(rs[i]) { if i > 0 { assert rs[i] == rs[1..][i - 1]; } }
        }
      }
    }
  }

  /** One call takes one page of what can be given. */
  lemma {:induction false} TakeOneAt(rs: seq<MemRange>, i: nat)
    requires i < |rs| && !Skipped(rs[i]) && forall j :: 0 <= j < i ==> Skipped(rs[j])
    ensures TakeOne(rs) == rs[i := Shortened(rs[i])]
    ensures AllGivable(rs) > 0 && AllGivable(TakeOne(rs)) == AllGivable(rs) - 1
  {
    hide Skipped, Shortened;
    if i > 0 {
      TakeOneAt(rs[1..], i - 1);
      var t := TakeOne(rs);
      assert t[1..] == TakeOne(rs[1..]);
    } else {
      assert TakeOne(rs)[1..] == rs[1..];
    }
  }

  lemma {:induction false} TakeManyMore(rs: seq<MemRange>, a: nat, b: nat)
    ensures TakeMany(TakeMany(rs, a), b) == TakeMany(rs, a + b)
  {
    if b > 0 { TakeManyMore(rs, a, b - 1); }
  }

  // ---------- the early allocator ----------

  /** early_ranges, early_nranges and early_max_extent. */
  class Early {
    const ranges: array<MemRange>
    const maxExtent: nat
    /** The pages handed out so far. */
    ghost var taken: set<nat>

    ghost predicate Valid()
      reads this, ranges
    {
      Sound(ranges[..], maxExtent) && Left() !! taken
    }

    /** The pages not handed out yet. */
    ghost function Left(): set<nat>
      reads ranges
    {
      PagesOf(ranges[..])
    }

    /** init_physical_memory_early: the ranges are copied. */
    constructor (rs: seq<MemRange>, maxExtent: nat)
      requires |rs| < 64 && Sound(rs, maxExtent)
      ensures Valid() && fresh(ranges) && ranges[..] == rs && this.maxExtent == maxExtent && taken == {}
    {
      var a := new MemRange[|rs|](i requires 0 <= i < |rs| => rs[i]);
      this.ranges, this.maxExtent, this.taken := a, maxExtent, {};
      new;
      assert ranges[..] == rs;
    }

    /** Some calls have been made since the ranges were these. */
    ghost predicate Took(before: seq<MemRange>, calls: nat)
      reads ranges
    {
      ranges[..] == TakeMany(before, calls) && AllGivable(ranges[..]) + calls == AllGivable(before)
    }

    /** early_alloc_page: the first page of the first suitable range, or a stop when there is none. */
    method AllocPage() returns (r: Option<nat>)
      requires Valid()
      modifies this, ranges
      ensures Valid()
      ensures r.None? <==>
                forall i :: 0 <= i < ranges.Length ==>
                  !(0x10_0000 <= old(ranges[i]).start < 0x1_0000_0000 && old(ranges[i]).extent > 0x1000)
      ensures r.None? <==> AllGivable(old(ranges[..])) == 0
      ensures r.None? ==> ranges[..] == old(ranges[..]) && taken == old(taken)
      ensures r.Some? ==> Took(old(ranges[..]), 1)
      ensures r.Some? ==>
                && r.value % PAGE == 0 && MB1 <= r.value < GB4
                && r.value / PAGE in old(Left()) && Left() == old(Left()) - {r.value / PAGE}
                && taken == old(taken) + {r.value / PAGE}
                && exists i :: 0 <= i < ranges.Length && r.value == old(ranges[i]).start
                               && 0x10_0000 <= r.value < 0x1_0000_0000 && old(ranges[i]).extent > 0x1000
                               && forall j :: 0 <= j < i ==> Skipped(old(ranges[j]))
    {
      hide PagesOf, Sound, WholePages, TakeOne, AllGivable;
      NothingGivable(ranges[..]);
      for i := 0 to ranges.Length
        invariant ranges[..] == old(ranges[..]) && taken == old(taken)
        invariant forall j :: 0 <= j < i ==> Skipped(ranges[j])
      {
        if !Skipped(ranges[i]) {
          r := Some(ranges[i].start);
          ShortenedSound(ranges[..], i, maxExtent);
          TakeOneAt(ranges[..], i);
          ranges[i] := Shortened(ranges[i]);
          assert ranges[..] == old(ranges[..])[i := Shortened(old(ranges[i]))];
          taken := taken + {r.value / PAGE};
          assert TakeMany(old(ranges[..]), 0) == old(ranges[..]);
          return;
        }
      }
      r := None;
    }
  }

  // ---------- distribution ----------

  /** split_range: what lies below loc, and what stays. */
  method SplitRange(r: MemRange, loc: nat) returns (below: MemRange, rest: MemRange)
    ensures r.start % PAGE == 0 && loc % PAGE == 0 ==>
              && (below.extent > 0 ==> below.start % PAGE == 0) && rest.start % PAGE == 0
              && WholePages(below) !! WholePages(rest) && WholePages(below) + WholePages(rest) == WholePages(r)
    ensures below.extent > 0 ==> below.start == r.start && below.start + below.extent <= loc
    ensures rest.extent > 0 ==> rest.start >= loc && rest.start >= r.start
    ensures rest.start + rest.extent <= r.start + r.extent && below.extent <= r.extent
  {
    if r.start >= loc {
      below, rest := MemRange(0, 0), r;
    } else if r.start + r.extent <= loc {
      below, rest := r, MemRange(r.start, 0);
    } else {
      below, rest := MemRange(r.start, loc - r.start), MemRange(loc, r.extent - (loc - r.start));
      if r.start % PAGE == 0 && loc % PAGE == 0 {
        RangeJoin(r.start / PAGE, loc / PAGE, r.start / PAGE + r.extent / PAGE);
      }
    }
  }

  /** buddy_free_range on one zone, in absolute pages. */
  method GiveRange(z: Buddy, r: MemRange)
    requires z.Valid() && r.start % PAGE == 0 && z.start <= r.start && r.start + r.extent <= z.start + z.size
    requires WholePages(r) !! ZoneFree(z)
    modifies z, z.bank, z.bank.storage
    ensures z.Valid() && ZoneFree(z) == old(ZoneFree(z)) + WholePages(r)
  {
    hide Canonical, BitBank.Valid, Range, Shifted;
    ghost var lo, hi := (r.start - z.start) / PAGE, (r.start - z.start) / PAGE + r.extent / PAGE;
    ShiftedRange(lo, hi, z.start / PAGE);
    ShiftedPlus(z.free, Range(lo, hi), z.start / PAGE);
    ghost var pieces := z.FreeRange(r, lo, hi);
    if r.extent < PAGE { NothingWhole(r); }
  }

  lemma {:induction false} NothingWhole(r: MemRange)
    requires r.extent < PAGE
    ensures WholePages(r) == {}
  {
  }

  /** buddy_free_range on one zone of the physical memory manager. */
  method GiveZone(pmm: Pmm, req: Req, r: MemRange)
    requires pmm.Valid() && r.start % PAGE == 0
    requires pmm.Zone(req).start <= r.start && r.start + r.extent <= pmm.Zone(req).start + pmm.Zone(req).size
    requires WholePages(r) !! pmm.Stock()
    modifies pmm.Repr()
    ensures pmm.Valid() && pmm.Stock() == old(pmm.Stock()) + WholePages(r)
  {
    hide Shifted, Buddy.Valid, WholePages;
    GiveRange(pmm.Zone(req), r);
  }

  /** The zones reach as far as physical memory does. */
  ghost predicate ZonesReach(pmm: Pmm, maxExtent: nat) {
    && pmm.low.size == MB1
    && pmm.mid.start + pmm.mid.size == (if maxExtent < GB4 then maxExtent else GB4)
    && pmm.high.size == if maxExtent > GB4 then maxExtent - GB4 else 0
  }

  /** One round of the distribution loop: the parts of a range go to the zones they lie in. */
  method GiveParts(pmm: Pmm, r: MemRange, maxExtent: nat) returns (rest: MemRange)
    requires pmm.Valid() && ZonesReach(pmm, maxExtent) && r.start % PAGE == 0 && r.start + r.extent <= maxExtent
    requires WholePages(r) !! pmm.Stock()
    modifies pmm.Repr()
    ensures pmm.Valid() && pmm.Stock() == old(pmm.Stock()) + WholePages(r)
  {
    hide Pmm.Valid, WholePages, Pmm.Stock;
    Places(pmm);
    var low, upper := SplitRange(r, MB1);
    NothingIn(low);
    if low.extent > 0 {
      GiveZone(pmm, Under1MB, low);
    }
    var mid, high := SplitRange(upper, GB4);
    NothingIn(mid);
    NothingIn(high);
    if mid.extent > 0 {
      GiveZone(pmm, Under4GB, mid);
    }
    if high.extent > 0 {
      GiveZone(pmm, NoReq, high);
    }
    rest := high;
  }

  lemma {:induction false} NothingIn(r: MemRange)
    ensures r.extent == 0 ==> WholePages(r) == {}
  {
  }

  lemma {:induction false} Places(pmm: Pmm)
    requires pmm.Valid()
    ensures pmm.Placed()
    ensures pmm.Zone(Under1MB) == pmm.low && pmm.Zone(Under4GB) == pmm.mid && pmm.Zone(NoReq) == pmm.high
  {
  }

  /** The zones and the distribution loop of init_physical_memory: exactly the pages still left become
      free, each in the zone its address lies in. */
  method Distribute(early: Early) returns (pmm: Pmm)
    requires early.Valid() && MB1 <= early.maxExtent < NO_BLOCK
    modifies early.ranges
    ensures pmm.Valid() && fresh(pmm.Repr()) && ZonesReach(pmm, early.maxExtent)
    ensures pmm.Stock() == old(early.Left())
    ensures early.maxExtent <= GB4 ==> pmm.high.free == {}
  {
    hide Pmm.Valid, Pmm.Stock, WholePages, PagesOf, Sound;
    pmm := new Pmm(early.maxExtent);
    ghost var rs := early.ranges[..];
    for i := 0 to early.ranges.Length
      invariant pmm.Valid() && fresh(pmm.Repr())
      invariant pmm.Stock() == PagesOf(rs[..i])
      invariant forall j :: i <= j < early.ranges.Length ==> early.ranges[j] == rs[j]
    {
      NextRange(rs, i, early.maxExtent);
      if early.ranges[i].extent == 0 {
        NothingIn(early.ranges[i]);
        continue;
      }
      var rest := GiveParts(pmm, early.ranges[i], early.maxExtent);
      early.ranges[i] := rest;
    }
    assert rs[..|rs|] == rs;
    NoHighPages(pmm);
  }

  lemma {:induction false} NextRange(rs: seq<MemRange>, i: nat, maxExtent: nat)
    requires Sound(rs, maxExtent) && i < |rs|
    ensures rs[i].start % PAGE == 0 && rs[i].start + rs[i].extent <= maxExtent
    ensures PagesOf(rs[..i + 1]) == PagesOf(rs[..i]) + WholePages(rs[i]) && WholePages(rs[i]) !! PagesOf(rs[..i])
  {
    hide WholePages;
    assert rs[..i + 1][..i] == rs[..i];
  }

  lemma {:induction false} NoHighPages(pmm: Pmm)
    requires pmm.Valid()
    ensures pmm.high.size == 0 ==> pmm.high.free == {}
  {
  }
}
