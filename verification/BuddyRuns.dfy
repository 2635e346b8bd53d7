/** Whole runs of one buddy allocator: any sequence of requests, served by buddy_alloc, buddy_free and
    buddy_free_range. */
module BuddyRuns {
  import opened Arith
  import opened BuddyTheory
  import opened Banks
  import Bitmaps
  import opened Buddies

  /** What a client asks for: a block of some size, giving back its n-th live block, or adding a range
      of memory. */
  datatype Request = Get(sz: nat) | Put(n: nat) | Add(range: MemRange)

  /** A block the client holds. */
  datatype Loan = Loan(addr: nat, sz: nat)

  ghost predicate Held(bd: Buddy, l: Loan) {
    && l.sz > 0 && MIN_LOG2 <= Log2Roundup(l.sz) <= MAX_LOG2
    && l.addr >= bd.start
    && l.addr == bd.start + PAGE * Lo(bd.BlockAt(l.addr, l.sz))
    && Hi(bd.BlockAt(l.addr, l.sz)) <= bd.size / PAGE
  }

  /** The pages of a loan. */
  ghost function LoanPages(bd: Buddy, l: Loan): set<nat>
    requires Held(bd, l)
  {
    Pages(bd.BlockAt(l.addr, l.sz))
  }

  ghost predicate AllHeld(bd: Buddy, live: seq<Loan>) { forall i :: 0 <= i < |live| ==> Held(bd, live[i]) }

  /** Live blocks share no page. */
  ghost predicate NoOverlap(bd: Buddy, live: seq<Loan>)
    requires AllHeld(bd, live)
  {
    forall i, j :: 0 <= i < j < |live| ==> LoanPages(bd, live[i]) !! LoanPages(bd, live[j])
  }

  ghost predicate Owned(bd: Buddy, live: seq<Loan>, p: nat)
    requires AllHeld(bd, live)
  {
    exists i :: 0 <= i < |live| && p in LoanPages(bd, live[i])
  }

  /** Every page of the initial stock is free or in exactly one live block, and no other page is. */
  ghost predicate Conserved(bd: Buddy, live: seq<Loan>, free: set<nat>, total: set<nat>)
    requires AllHeld(bd, live)
  {
    && (forall p: nat :: p in total <==> p in free || Owned(bd, live, p))
    && (forall i :: 0 <= i < |live| ==> LoanPages(bd, live[i]) !! free)
    && NoOverlap(bd, live)
  }

  lemma {:induction false} TakeConserves(bd: Buddy, live: seq<Loan>, free: set<nat>, total: set<nat>, l: Loan)
    requires AllHeld(bd, live) && Conserved(bd, live, free, total)
    requires Held(bd, l) && LoanPages(bd, l) <= free
    ensures AllHeld(bd, live + [l]) && Conserved(bd, live + [l], free - LoanPages(bd, l), total)
  {
    hide Held, LoanPages;
    var more, rest := live + [l], free - LoanPages(bd, l);
    assert AllHeld(bd, more);
    assert more[|live|] == l;
    forall p: nat
      ensures p in total <==> p in rest || Owned(bd, more, p)
    {
      if Owned(bd, live, p) {
        var i :| 0 <= i < |live| && p in LoanPages(bd, live[i]);
        assert more[i] == live[i];
      }
    }
  }

  lemma {:induction false} GiveConserves(bd: Buddy, live: seq<Loan>, free: set<nat>, total: set<nat>, n: nat)
    requires AllHeld(bd, live) && Conserved(bd, live, free, total) && n < |live|
    ensures AllHeld(bd, live[..n] + live[n + 1..])
    ensures Conserved(bd, live[..n] + live[n + 1..], free + LoanPages(bd, live[n]), total)
  {
    hide Held, LoanPages;
    var less, more := live[..n] + live[n + 1..], free + LoanPages(bd, live[n]);
    assert AllHeld(bd, less);
    forall p: nat
      ensures p in total <==> p in more || Owned(bd, less, p)
    {
      if Owned(bd, live, p) {
        var i :| 0 <= i < |live| && p in LoanPages(bd, live[i]);
        if i < n { assert less[i] == live[i]; } else if i > n { assert less[i - 1] == live[i]; }
      }
      if Owned(bd, less, p) {
        var i :| 0 <= i < |less| && p in LoanPages(bd, less[i]);
        assert less[i] == live[if i < n then i else i + 1];
      }
    }
    forall i | 0 <= i < |less|
      ensures LoanPages(bd, less[i]) !! more
    {
      assert less[i] == live[if i < n then i else i + 1];
    }
  }

  /** Memory from outside joins the free pages. */
  lemma {:induction false} AddConserves(bd: Buddy, live: seq<Loan>, free: set<nat>, total: set<nat>, pages: set<nat>)
    requires AllHeld(bd, live) && Conserved(bd, live, free, total) && pages !! total
    ensures Conserved(bd, live, free + pages, total + pages)
  {
    hide Held, LoanPages;
    forall i | 0 <= i < |live|
      ensures LoanPages(bd, live[i]) !! free + pages
    {
      forall p | p in LoanPages(bd, live[i])
        ensures p !in pages
      {
        assert Owned(bd, live, p);
      }
    }
  }

  /** The pages a range adds, counted from the region start. */
  ghost function Added(start: nat, range: MemRange): set<nat> {
    var first := RoundToPage(range.start);
    if first < start then {} else
      Range((first - start) / PAGE, (first - start) / PAGE + range.extent / PAGE)
  }

  /** The pages all requests add. */
  ghost function AllAdded(start: nat, requests: seq<Request>): set<nat> {
    if requests == [] then {} else
      var r := requests[|requests| - 1];
      AllAdded(start, requests[..|requests| - 1]) + if r.Add? then Added(start, r.range) else {}
  }

  /** A request the allocator accepts; a range must lie in the region. */
  ghost predicate Acceptable(bd: Buddy, r: Request) {
    match r
    case Get(sz) => sz > 0 && MIN_LOG2 <= Log2Roundup(sz) <= MAX_LOG2
    case Put(n) => true
    case Add(range) =>
      var first := RoundToPage(range.start);
      bd.start <= first && (first - bd.start) / PAGE + range.extent / PAGE <= bd.size / PAGE
  }

  /** No page is added that was there from the start or was added before. */
  ghost predicate NewPages(bd: Buddy, requests: seq<Request>, total: set<nat>) {
    forall i :: 0 <= i < |requests| && requests[i].Add? ==>
                  Added(bd.start, requests[i].range) !! total + AllAdded(bd.start, requests[..i])
  }

  // ---------- what a run comes to ----------

  /** The free pages and the live blocks. */
  datatype Account = Account(free: set<nat>, live: seq<Loan>)

  /** The pages of a loan, from the start of the region alone. */
  ghost function PagesLent(start: nat, l: Loan): set<nat> {
    if l.sz > 0 && l.addr >= start && Log2Roundup(l.sz) >= MIN_LOG2
    then Pages(Block(Log2Roundup(l.sz) - MIN_LOG2, Shr(l.addr - start, Log2Roundup(l.sz))))
    else {}
  }

  /** The account after one request: the leftmost of the smallest sufficient free blocks is lent from its left
      end, a block comes back, a range is added. */
  ghost function Next(start: nat, a: Account, r: Request): Account {
    match r
    case Get(sz) =>
      if sz > 0 && Log2Roundup(sz) >= MIN_LOG2 && HasFit(a.free, Log2Roundup(sz) - MIN_LOG2)
      then
        var l := Loan(start + PAGE * Lo(TheFit(a.free, Log2Roundup(sz) - MIN_LOG2)), sz);
        Account(a.free - PagesLent(start, l), a.live + [l])
      else a
    case Put(n) =>
      if n < |a.live|
      then Account(a.free + PagesLent(start, a.live[n]), a.live[..n] + a.live[n + 1..])
      else a
    case Add(range) => Account(a.free + Added(start, range), a.live)
  }

  /** The account after a run, from the free pages it began with and the requests. */
  ghost function Play(start: nat, free: set<nat>, requests: seq<Request>): Account {
    if requests == [] then Account(free, []) else
      var n := |requests| - 1;
      Next(start, Play(start, free, requests[..n]), requests[n])
  }

  /** Any run: the allocator stays canonical, live blocks never overlap each other or the free pages, no page is
      lost or made up, and answers and free pages are determined by the free pages at the start. */
  method Serve(bd: Buddy, requests: seq<Request>) returns (live: seq<Loan>)
    requires bd.Valid()
    requires forall i :: 0 <= i < |requests| ==> Acceptable(bd, requests[i])
    requires NewPages(bd, requests, bd.free)
    modifies bd, bd.bank, bd.bank.storage
    ensures bd.Valid() && AllHeld(bd, live)
    ensures Conserved(bd, live, bd.free, old(bd.free) + AllAdded(bd.start, requests))
    ensures Account(bd.free, live) == Play(bd.start, old(bd.free), requests)
  {
    hide Canonical, BitBank.Valid, Shr, Shl, Pow2, NoOverlap, Whole, Range, Conserved, Added, Next;
    live := [];
    ghost var total := bd.free;
    NothingLent(bd, total);
    assert total + AllAdded(bd.start, requests[..0]) == total;
    for i := 0 to |requests|
      invariant bd.Valid() && AllHeld(bd, live)
      invariant Conserved(bd, live, bd.free, total + AllAdded(bd.start, requests[..i]))
      invariant Account(bd.free, live) == Play(bd.start, total, requests[..i])
    {
      assert requests[..i + 1][..i] == requests[..i];
      assert Acceptable(bd, requests[i]);
      ghost var all := total + AllAdded(bd.start, requests[..i]);
      ghost var next := total + AllAdded(bd.start, requests[..i + 1]);
      assert next == if requests[i].Add? then all + Added(bd.start, requests[i].range) else all;
      match requests[i]
      case Get(sz) => live := Lend(bd, sz, live, all);
      case Put(n) => live := TakeBack(bd, n, live, all);
      case Add(range) => AddRange(bd, range, live, all);
    }
    assert requests[..|requests|] == requests;
  }

  method Lend(bd: Buddy, sz: nat, live: seq<Loan>, ghost all: set<nat>) returns (live': seq<Loan>)
    requires bd.Valid() && AllHeld(bd, live) && Conserved(bd, live, bd.free, all)
    requires sz > 0 && MIN_LOG2 <= Log2Roundup(sz) <= MAX_LOG2
    modifies bd, bd.bank, bd.bank.storage
    ensures bd.Valid() && AllHeld(bd, live') && Conserved(bd, live', bd.free, all)
    ensures Account(bd.free, live') == Next(bd.start, Account(old(bd.free), live), Get(sz))
  {
    hide Canonical, BitBank.Valid, Shr, Shl, Pow2, NoOverlap, Whole, Range, Conserved, FirstFit, Pages;
    ghost var before := bd.free;
    var addr := bd.Alloc(sz);
    live' := live;
    Fits(before, Log2Roundup(sz) - MIN_LOG2);
    if addr != NO_BLOCK {
      ghost var h :| FirstFit(before, Log2Roundup(sz) - MIN_LOG2, h) && addr == bd.start + PAGE * Lo(h);
      FirstFitUnique(before, Log2Roundup(sz) - MIN_LOG2, h, TheFit(before, Log2Roundup(sz) - MIN_LOG2));
      WholeIsSubset(before, bd.BlockAt(addr, sz));
      TakeConserves(bd, live, before, all, Loan(addr, sz));
      live' := live + [Loan(addr, sz)];
    }
  }

  method TakeBack(bd: Buddy, n: nat, live: seq<Loan>, ghost all: set<nat>) returns (live': seq<Loan>)
    requires bd.Valid() && AllHeld(bd, live) && Conserved(bd, live, bd.free, all)
    modifies bd, bd.bank, bd.bank.storage
    ensures bd.Valid() && AllHeld(bd, live') && Conserved(bd, live', bd.free, all)
    ensures Account(bd.free, live') == Next(bd.start, Account(old(bd.free), live), Put(n))
  {
    hide Canonical, BitBank.Valid, Shr, Shl, Pow2, NoOverlap, Whole, Range;
    live' := live;
    if n < |live| {
      GiveConserves(bd, live, bd.free, all, n);
      assert Held(bd, live[n]);
      bd.Free(live[n].addr, live[n].sz);
      live' := live[..n] + live[n + 1..];
    }
  }

  method AddRange(bd: Buddy, range: MemRange, live: seq<Loan>, ghost all: set<nat>)
    requires bd.Valid() && AllHeld(bd, live) && Conserved(bd, live, bd.free, all)
    requires Acceptable(bd, Add(range)) && Added(bd.start, range) !! all
    modifies bd, bd.bank, bd.bank.storage
    ensures bd.Valid() && Conserved(bd, live, bd.free, all + Added(bd.start, range))
    ensures Account(bd.free, live) == Next(bd.start, Account(old(bd.free), live), Add(range))
  {
    hide Canonical, BitBank.Valid, NoOverlap, Range, Held, LoanPages;
    ghost var lo := (RoundToPage(range.start) - bd.start) / PAGE;
    ghost var hi := lo + range.extent / PAGE;
    AddConserves(bd, live, bd.free, all, Added(bd.start, range));
    FirstPage(bd.start, RoundToPage(range.start));
    assert bd.free !! Range(lo, hi);
    ghost var pieces := bd.FreeRange(range, lo, hi);
    assert range.extent < PAGE ==> Range(lo, hi) == {};
  }

  /** Some free block suffices exactly when some block of the order is wholly free. */
  lemma {:induction false} Fits(free: set<nat>, order: nat)
    ensures (forall b: Block :: b.order == order ==> !Whole(free, b)) ==> !HasFit(free, order)
  {
    if HasFit(free, order) {
      var b := LeftPart(free, TheFit(free, order), order);
    }
  }

  lemma {:induction false} FirstPage(start: nat, first: nat)
    requires start % PAGE == 0 && first % PAGE == 0 && start <= first
    ensures first == start + PAGE * ((first - start) / PAGE)
  {
  }

  lemma {:induction false} NothingLent(bd: Buddy, total: set<nat>)
    ensures AllHeld(bd, []) && Conserved(bd, [], total, total)
  {
  }

  /** Histories do not matter: two allocators of the same extent that started with the same stock
      and whose clients hold the same pages have identical bookkeeping bytes. */
  lemma {:induction false} HistoryIndependence(a: Buddy, b: Buddy, la: seq<Loan>, lb: seq<Loan>, total: set<nat>)
    requires a.Valid() && b.Valid() && a.size == b.size
    requires AllHeld(a, la) && Conserved(a, la, a.free, total)
    requires AllHeld(b, lb) && Conserved(b, lb, b.free, total)
    requires forall p: nat :: Owned(a, la, p) <==> Owned(b, lb, p)
    ensures a.free == b.free && a.bank.bits == b.bank.bits && a.bank.Image() == b.bank.Image()
  {
    hide Canonical, Held, LoanPages, Encodes, SliceStart, Bitmaps.Bit;
    FreeIsRest(a, la, total);
    FreeIsRest(b, lb, total);
    assert a.free == b.free;
    a.bank.ImageEncodes();
    b.bank.ImageEncodes();
    CanonicalUnique(a.bank.bits, b.bank.bits, a.free);
    BytesFromFreePages(a.bank.Image(), b.bank.Image(), a.size, a.bank.bits, b.bank.bits, a.free);
  }

  /** The same requests to two allocators that begin alike get the same answers and leave the same bytes. */
  method ServeTwins(a: Buddy, b: Buddy, requests: seq<Request>) returns (la: seq<Loan>, lb: seq<Loan>)
    requires a.Valid() && b.Valid() && a.start == b.start && a.size == b.size && a.free == b.free
    requires {a, a.bank, a.bank.storage} !! {b, b.bank, b.bank.storage}
    requires forall i :: 0 <= i < |requests| ==> Acceptable(a, requests[i])
    requires NewPages(a, requests, a.free)
    modifies a, a.bank, a.bank.storage, b, b.bank, b.bank.storage
    ensures a.Valid() && b.Valid() && la == lb && a.free == b.free && a.bank.Image() == b.bank.Image()
  {
    hide Canonical, Conserved, Play, Encodes, SliceStart, AllHeld, AllAdded, Added;
    forall i | 0 <= i < |requests|
      ensures Acceptable(b, requests[i])
    {
      assert Acceptable(a, requests[i]);
    }
    la := Serve(a, requests);
    lb := Serve(b, requests);
    a.bank.ImageEncodes();
    b.bank.ImageEncodes();
    BytesFromFreePages(a.bank.Image(), b.bank.Image(), a.size, a.bank.bits, b.bank.bits, a.free);
  }

  lemma {:induction false} FreeIsRest(bd: Buddy, live: seq<Loan>, total: set<nat>)
    requires AllHeld(bd, live) && Conserved(bd, live, bd.free, total)
    ensures forall p: nat :: p in bd.free <==> p in total && !Owned(bd, live, p)
  {
  }
}
