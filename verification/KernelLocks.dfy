/** Which locks the memory routines take, and in what order (slab.c, vmspace.c, arch/x86/vmm.c, pmm.c). */
module KernelLocks {
  import opened Spinlocks
  import opened Interrupts

  /** What a lock belongs to. */
  datatype Kind = Slab | Space | Tables | Pages

  function Level(k: Kind): nat {
    match k
    case Slab => 0
    case Space => 1
    case Tables => 2
    case Pages => 3
  }

  /** The rank of a lock, given the kinds of all locks. */
  function RankOf(kinds: seq<Kind>): nat -> nat {
    (l: nat) => if l < |kinds| then Level(kinds[l]) else 0
  }

  /** The locks one call works with. */
  datatype Locks = Locks(slab: nat, space: nat, tables: nat, pages: nat)

  predicate Fit(kinds: seq<Kind>, k: Locks) {
    && k.slab < |kinds| && kinds[k.slab] == Slab
    && k.space < |kinds| && kinds[k.space] == Space
    && k.tables < |kinds| && kinds[k.tables] == Tables
    && k.pages < |kinds| && kinds[k.pages] == Pages
  }

  /** A call, with the turns it takes: which pages needed a new page table, how many pages, whether a
      slab was made or given back. */
  datatype Call =
    | AllocPages
    | FreePages
    | Map(newTables: seq<bool>)
    | Unmap(n: nat)
    | SpaceAlloc(backed: bool, newTables: seq<bool>)
    | SpaceFree(backed: bool, n: nat)
    | SlabAlloc(grows: bool, newTables: seq<bool>)
    | SlabFree(shrinks: bool, n: nat)

  function Within(l: nat, body: seq<Op>): seq<Op> { [Acq(l)] + body + [Rel(l)] }

  /** map: one lock per page, and the physical allocator's inside it for a new table. */
  function MapOps(k: Locks, newTables: seq<bool>): seq<Op> {
    if newTables == [] then [] else
      MapOps(k, newTables[..|newTables| - 1]) +
      Within(k.tables, if newTables[|newTables| - 1] then Within(k.pages, []) else [])
  }

  function UnmapOps(k: Locks, n: nat): seq<Op> {
    if n == 0 then [] else UnmapOps(k, n - 1) + Within(k.tables, [])
  }

  /** The loop of vmspace_free: free_page, then unmap, for each page. */
  function ReleaseOps(k: Locks, n: nat): seq<Op> {
    if n == 0 then [] else ReleaseOps(k, n - 1) + (Within(k.pages, []) + UnmapOps(k, 1))
  }

  /** The lock operations of a call. */
  function Ops(k: Locks, call: Call): seq<Op> {
    match call
    case AllocPages => Within(k.pages, [])
    case FreePages => Within(k.pages, [])
    case Map(newTables) => MapOps(k, newTables)
    case Unmap(n) => UnmapOps(k, n)
    case SpaceAlloc(backed, newTables) => SpaceAllocOps(k, backed, newTables)
    case SpaceFree(backed, n) => SpaceFreeOps(k, backed, n)
    case SlabAlloc(grows, newTables) => Within(k.slab, if grows then SpaceAllocOps(k, true, newTables) else [])
    case SlabFree(shrinks, n) => Within(k.slab, if shrinks then SpaceFreeOps(k, true, n) else [])
  }

  function SpaceAllocOps(k: Locks, backed: bool, newTables: seq<bool>): seq<Op> {
    Within(k.space, if backed then Within(k.pages, []) + MapOps(k, newTables) else [])
  }

  function SpaceFreeOps(k: Locks, backed: bool, n: nat): seq<Op> {
    Within(k.space, if backed then ReleaseOps(k, n) else [])
  }

  /** A piece of program that leaves the held locks as they were and takes locks only above level v. */
  ghost predicate Above(kinds: seq<Kind>, v: int, ops: seq<Op>) {
    forall held: seq<nat>, rest: seq<Op> ::
      (forall h :: h in held ==> RankOf(kinds)(h) <= v) && Disciplined(held, rest, |kinds|, RankOf(kinds))
      ==> Disciplined(held, ops + rest, |kinds|, RankOf(kinds))
  }

  lemma {:induction false} AboveNone(kinds: seq<Kind>, v: int)
    ensures Above(kinds, v, [])
  {
    forall held: seq<nat>, rest: seq<Op> | Disciplined(held, rest, |kinds|, RankOf(kinds))
      ensures Disciplined(held, [] + rest, |kinds|, RankOf(kinds))
    {
      assert [] + rest == rest;
    }
  }

  lemma {:induction false} AboveJoin(kinds: seq<Kind>, v: int, a: seq<Op>, b: seq<Op>)
    requires Above(kinds, v, a) && Above(kinds, v, b)
    ensures Above(kinds, v, a + b)
  {
    hide Disciplined;
    forall held: seq<nat>, rest: seq<Op> |
      (forall h :: h in held ==> RankOf(kinds)(h) <= v) && Disciplined(held, rest, |kinds|, RankOf(kinds))
      ensures Disciplined(held, a + b + rest, |kinds|, RankOf(kinds))
    {
      assert Disciplined(held, b + rest, |kinds|, RankOf(kinds));
      assert Disciplined(held, a + (b + rest), |kinds|, RankOf(kinds));
      assert a + (b + rest) == a + b + rest;
    }
  }

  lemma {:induction false} TakeFirst(held: seq<nat>, l: nat, ops: seq<Op>, n: nat, rank: nat -> nat)
    requires l < n && Below(held, l, rank) && Disciplined(held + [l], ops, n, rank)
    ensures Disciplined(held, [Acq(l)] + ops, n, rank)
  {
    var all := [Acq(l)] + ops;
    assert all[0] == Acq(l) && all[1..] == ops;
  }

  lemma {:induction false} ReleaseFirst(held: seq<nat>, l: nat, ops: seq<Op>, n: nat, rank: nat -> nat)
    requires Disciplined(held, ops, n, rank)
    ensures Disciplined(held + [l], [Rel(l)] + ops, n, rank)
  {
    var all, inner := [Rel(l)] + ops, held + [l];
    assert all[0] == Rel(l) && all[1..] == ops && inner[|inner| - 1] == l && inner[..|inner| - 1] == held;
  }

  lemma {:induction false} BelowLevel(kinds: seq<Kind>, v: int, l: nat, held: seq<nat>)
    requires l < |kinds| && v < Level(kinds[l]) && forall h :: h in held ==> RankOf(kinds)(h) <= v
    ensures Below(held, l, RankOf(kinds))
    ensures forall h :: h in held + [l] ==> RankOf(kinds)(h) <= Level(kinds[l])
  {
  }

  /** A lock around a piece that stays above it. */
  lemma {:induction false} AboveWithin(kinds: seq<Kind>, v: int, l: nat, body: seq<Op>)
    requires l < |kinds| && v < Level(kinds[l]) && Above(kinds, Level(kinds[l]), body)
    ensures Above(kinds, v, Within(l, body))
  {
    hide Disciplined, Below, Level, RankOf;
    var rank, n := RankOf(kinds), |kinds|;
    forall held: seq<nat>, rest: seq<Op> | (forall h :: h in held ==> rank(h) <= v) && Disciplined(held, rest, n, rank)
      ensures Disciplined(held, Within(l, body) + rest, n, rank)
    {
      BelowLevel(kinds, v, l, held);
      ReleaseFirst(held, l, rest, n, rank);
      assert Disciplined(held + [l], body + ([Rel(l)] + rest), n, rank);
      TakeFirst(held, l, body + ([Rel(l)] + rest), n, rank);
      assert [Acq(l)] + (body + ([Rel(l)] + rest)) == Within(l, body) + rest;
    }
  }

  lemma {:induction false} MapAbove(kinds: seq<Kind>, k: Locks, newTables: seq<bool>)
    requires Fit(kinds, k)
    ensures Above(kinds, 1, MapOps(k, newTables))
    decreases |newTables|
  {
    hide Above, Within;
    AboveNone(kinds, 1);
    if newTables != [] {
      var n := |newTables| - 1;
      MapAbove(kinds, k, newTables[..n]);
      AboveNone(kinds, 2);
      AboveNone(kinds, 3);
      AboveWithin(kinds, 2, k.pages, []);
      var body := if newTables[n] then Within(k.pages, []) else [];
      AboveWithin(kinds, 1, k.tables, body);
      AboveJoin(kinds, 1, MapOps(k, newTables[..n]), Within(k.tables, body));
    }
  }

  lemma {:induction false} UnmapAbove(kinds: seq<Kind>, k: Locks, n: nat)
    requires Fit(kinds, k)
    ensures Above(kinds, 1, UnmapOps(k, n))
  {
    hide Above, Within;
    AboveNone(kinds, 1);
    if n > 0 {
      UnmapAbove(kinds, k, n - 1);
      AboveNone(kinds, 2);
      AboveWithin(kinds, 1, k.tables, []);
      AboveJoin(kinds, 1, UnmapOps(k, n - 1), Within(k.tables, []));
    }
  }

  lemma {:induction false} ReleaseAbove(kinds: seq<Kind>, k: Locks, n: nat)
    requires Fit(kinds, k)
    ensures Above(kinds, 1, ReleaseOps(k, n))
  {
    hide Above, Within, UnmapOps;
    AboveNone(kinds, 1);
    if n > 0 {
      ReleaseAbove(kinds, k, n - 1);
      PagesAbove(kinds, k, 1);
      UnmapAbove(kinds, k, 1);
      AboveJoin(kinds, 1, Within(k.pages, []), UnmapOps(k, 1));
      AboveJoin(kinds, 1, ReleaseOps(k, n - 1), Within(k.pages, []) + UnmapOps(k, 1));
    }
  }

  lemma {:induction false} PagesAbove(kinds: seq<Kind>, k: Locks, v: int)
    requires Fit(kinds, k) && v < 3
    ensures Above(kinds, v, Within(k.pages, []))
  {
    hide Above, Within;
    AboveNone(kinds, 3);
    AboveWithin(kinds, v, k.pages, []);
  }

  lemma {:induction false} SpaceAbove(kinds: seq<Kind>, k: Locks, v: int, backed: bool, newTables: seq<bool>, n: nat)
    requires Fit(kinds, k) && v < 1
    ensures Above(kinds, v, SpaceAllocOps(k, backed, newTables)) && Above(kinds, v, SpaceFreeOps(k, backed, n))
  {
    hide Above, Within, MapOps, ReleaseOps;
    AboveNone(kinds, 1);
    PagesAbove(kinds, k, 1);
    MapAbove(kinds, k, newTables);
    ReleaseAbove(kinds, k, n);
    AboveJoin(kinds, 1, Within(k.pages, []), MapOps(k, newTables));
    AboveWithin(kinds, v, k.space, if backed then Within(k.pages, []) + MapOps(k, newTables) else []);
    AboveWithin(kinds, v, k.space, if backed then ReleaseOps(k, n) else []);
  }

  /** Every call of the memory code takes its locks in the order slab, space, tables, pages, and gives
      them back in the opposite order. */
  lemma {:induction false} CallAbove(kinds: seq<Kind>, k: Locks, call: Call)
    requires Fit(kinds, k)
    ensures Above(kinds, -1, Ops(k, call))
  {
    hide Above, Within, MapOps, ReleaseOps, UnmapOps, SpaceAllocOps, SpaceFreeOps;
    AboveNone(kinds, 0);
    PagesAbove(kinds, k, -1);
    match call
    case AllocPages =>
    case FreePages =>
    case Map(newTables) => MapAbove(kinds, k, newTables); AboveLower(kinds, 1, MapOps(k, newTables));
    case Unmap(n) => UnmapAbove(kinds, k, n); AboveLower(kinds, 1, UnmapOps(k, n));
    case SpaceAlloc(backed, newTables) => SpaceAbove(kinds, k, -1, backed, newTables, 0);
    case SpaceFree(backed, n) => SpaceAbove(kinds, k, -1, backed, [], n);
    case SlabAlloc(grows, newTables) =>
      SpaceAbove(kinds, k, 0, true, newTables, 0);
      AboveWithin(kinds, -1, k.slab, if grows then SpaceAllocOps(k, true, newTables) else []);
    case SlabFree(shrinks, n) =>
      SpaceAbove(kinds, k, 0, true, [], n);
      AboveWithin(kinds, -1, k.slab, if shrinks then SpaceFreeOps(k, true, n) else []);
  }

  lemma {:induction false} AboveLower(kinds: seq<Kind>, v: int, ops: seq<Op>)
    requires Above(kinds, v, ops) && v >= -1
    ensures Above(kinds, -1, ops)
  {
    hide Disciplined;
  }

  // ---------- what is held where ----------

  lemma {:induction false} HeldJoin(held: seq<nat>, a: seq<Op>, b: seq<Op>, n: nat)
    requires n <= |a + b|
    ensures HeldAfter(held, a + b, n) ==
              if n <= |a| then HeldAfter(held, a, n) else HeldAfter(HeldAfter(held, a, |a|), b, n - |a|)
    decreases n
  {
    if a == [] {
      assert a + b == b;
    } else if n > 0 {
      assert (a + b)[1..] == a[1..] + b && (a + b)[0] == a[0];
      HeldJoin(if a[0].Acq? then held + [a[0].l] else Shorter(held), a[1..], b, n - 1);
    }
  }

  /** A piece that releases what it takes, and nothing else. */
  ghost predicate Balanced(ops: seq<Op>) {
    forall held: seq<nat>, n: nat :: n <= |ops| ==>
      && held <= HeldAfter(held, ops, n)
      && (n == |ops| ==> HeldAfter(held, ops, n) == held)
  }

  lemma {:induction false} BalancedNone()
    ensures Balanced([])
  {
  }

  lemma {:induction false} BalancedJoin(a: seq<Op>, b: seq<Op>)
    requires Balanced(a) && Balanced(b)
    ensures Balanced(a + b)
  {
    hide HeldAfter;
    forall held: seq<nat>, n: nat | n <= |a + b|
      ensures held <= HeldAfter(held, a + b, n) && (n == |a + b| ==> HeldAfter(held, a + b, n) == held)
    {
      HeldJoin(held, a, b, n);
      assert n <= |a| ==> held <= HeldAfter(held, a, n);
      assert HeldAfter(held, a, |a|) == held;
      if n > |a| { assert held <= HeldAfter(held, b, n - |a|); }
    }
  }

  /** Around a balanced piece a lock is held from the first operation to the last. */
  lemma {:induction false} HeldWithin(held: seq<nat>, l: nat, body: seq<Op>, n: nat)
    requires Balanced(body) && 0 < n < |Within(l, body)|
    ensures HeldAfter(held, Within(l, body), n) == HeldAfter(held + [l], body, n - 1)
    ensures held + [l] <= HeldAfter(held, Within(l, body), n)
  {
    var ops := Within(l, body);
    assert ops[0] == Acq(l) && ops[1..] == body + [Rel(l)];
    HeldJoin(held + [l], body, [Rel(l)], n - 1);
  }

  lemma {:induction false} BalancedWithin(l: nat, body: seq<Op>)
    requires Balanced(body)
    ensures Balanced(Within(l, body))
  {
    hide HeldAfter;
    var ops := Within(l, body);
    forall held: seq<nat>, n: nat | n <= |ops|
      ensures held <= HeldAfter(held, ops, n) && (n == |ops| ==> HeldAfter(held, ops, n) == held)
    {
      if n == |ops| {
        assert ops == ([Acq(l)] + body) + [Rel(l)];
        HeldJoin(held, [Acq(l)] + body, [Rel(l)], n);
        HeldWithin(held, l, body, n - 1);
        HeldJoin(held, [Acq(l)] + body, [Rel(l)], n - 1);
        assert HeldAfter(held + [l], body, |body|) == held + [l];
        LastReleased(held, l);
      } else if n > 0 {
        HeldWithin(held, l, body, n);
        assert held <= held + [l];
      } else {
        NothingDone(held, ops);
      }
    }
  }

  lemma {:induction false} LastReleased(held: seq<nat>, l: nat)
    ensures HeldAfter(held + [l], [Rel(l)], 1) == held
  {
    assert HeldAfter(Shorter(held + [l]), [Rel(l)][1..], 0) == Shorter(held + [l]);
  }

  lemma {:induction false} NothingDone(held: seq<nat>, ops: seq<Op>)
    ensures HeldAfter(held, ops, 0) == held
  {
  }

  lemma {:induction false} MapBalanced(k: Locks, newTables: seq<bool>)
    ensures Balanced(MapOps(k, newTables))
    decreases |newTables|
  {
    hide Balanced, Within;
    BalancedNone();
    if newTables != [] {
      var n := |newTables| - 1;
      var body := if newTables[n] then Within(k.pages, []) else [];
      MapBalanced(k, newTables[..n]);
      BalancedWithin(k.pages, []);
      BalancedWithin(k.tables, body);
      BalancedJoin(MapOps(k, newTables[..n]), Within(k.tables, body));
    }
  }

  lemma {:induction false} UnmapBalanced(k: Locks, n: nat)
    ensures Balanced(UnmapOps(k, n))
  {
    hide Balanced, Within;
    BalancedNone();
    if n > 0 {
      UnmapBalanced(k, n - 1);
      BalancedWithin(k.tables, []);
      BalancedJoin(UnmapOps(k, n - 1), Within(k.tables, []));
    }
  }

  lemma {:induction false} ReleaseBalanced(k: Locks, n: nat)
    ensures Balanced(ReleaseOps(k, n))
  {
    hide Balanced, Within, UnmapOps;
    BalancedNone();
    if n > 0 {
      ReleaseBalanced(k, n - 1);
      BalancedWithin(k.pages, []);
      UnmapBalanced(k, 1);
      BalancedJoin(Within(k.pages, []), UnmapOps(k, 1));
      BalancedJoin(ReleaseOps(k, n - 1), Within(k.pages, []) + UnmapOps(k, 1));
    }
  }

  lemma {:induction false} SpaceBalanced(k: Locks, backed: bool, newTables: seq<bool>, n: nat)
    ensures Balanced(if backed then Within(k.pages, []) + MapOps(k, newTables) else [])
    ensures Balanced(if backed then ReleaseOps(k, n) else [])
    ensures Balanced(SpaceAllocOps(k, backed, newTables)) && Balanced(SpaceFreeOps(k, backed, n))
  {
    hide Balanced, Within, MapOps, ReleaseOps;
    BalancedNone();
    BalancedWithin(k.pages, []);
    MapBalanced(k, newTables);
    ReleaseBalanced(k, n);
    BalancedJoin(Within(k.pages, []), MapOps(k, newTables));
    BalancedWithin(k.space, if backed then Within(k.pages, []) + MapOps(k, newTables) else []);
    BalancedWithin(k.space, if backed then ReleaseOps(k, n) else []);
  }

  /** The lock a call holds from its first lock operation to its last; map and unmap have one for each page. */
  function Outer(k: Locks, call: Call): nat {
    if call.AllocPages? || call.FreePages? then k.pages
    else if call.Map? || call.Unmap? then k.tables
    else if call.SpaceAlloc? || call.SpaceFree? then k.space
    else k.slab
  }

  /** Between its first and its last lock operation every call but map and unmap holds its own lock, outermost. */
  lemma {:induction false} CallHolds(k: Locks, call: Call, n: nat)
    requires !call.Map? && !call.Unmap? && 0 < n < |Ops(k, call)|
    ensures [Outer(k, call)] <= HeldAfter([], Ops(k, call), n)
  {
    hide Within, MapOps, ReleaseOps, HeldAfter, Balanced;
    BalancedNone();
    match call
    case AllocPages => HeldWithin([], k.pages, [], n);
    case FreePages => HeldWithin([], k.pages, [], n);
    case SpaceAlloc(backed, newTables) =>
      SpaceBalanced(k, backed, newTables, 0);
      HeldWithin([], k.space, if backed then Within(k.pages, []) + MapOps(k, newTables) else [], n);
    case SpaceFree(backed, m) =>
      SpaceBalanced(k, backed, [], m);
      HeldWithin([], k.space, if backed then ReleaseOps(k, m) else [], n);
    case SlabAlloc(grows, newTables) =>
      SpaceBalanced(k, true, newTables, 0);
      HeldWithin([], k.slab, if grows then SpaceAllocOps(k, true, newTables) else [], n);
    case SlabFree(shrinks, m) =>
      SpaceBalanced(k, true, [], m);
      HeldWithin([], k.slab, if shrinks then SpaceFreeOps(k, true, m) else [], n);
    assert [] + [Outer(k, call)] == [Outer(k, call)];
  }

  /** map takes the page lock only inside the table lock, and the table lock only when it holds none. */
  lemma {:induction false} MapNests(k: Locks, newTables: seq<bool>, n: nat)
    requires n < |MapOps(k, newTables)| && k.tables != k.pages
    ensures MapOps(k, newTables)[n] == Acq(k.pages) ==> HeldAfter([], MapOps(k, newTables), n) == [k.tables]
    ensures MapOps(k, newTables)[n] == Acq(k.tables) ==> HeldAfter([], MapOps(k, newTables), n) == []
    decreases |newTables|
  {
    hide HeldAfter, Within;
    var m := |newTables| - 1;
    var front, one := MapOps(k, newTables[..m]), PageOps(k, newTables[m]);
    assert MapOps(k, newTables) == front + one;
    HeldJoin([], front, one, n);
    if n < |front| {
      MapNests(k, newTables[..m], n);
    } else {
      MapBalanced(k, newTables[..m]);
      assert HeldAfter([], front, |front|) == [];
      NothingDone([], one);
      PageNests(k, newTables[m], n - |front|);
    }
  }

  function PageOps(k: Locks, newTable: bool): seq<Op> {
    Within(k.tables, if newTable then Within(k.pages, []) else [])
  }

  lemma {:induction false} PageNests(k: Locks, newTable: bool, n: nat)
    requires n < |PageOps(k, newTable)| && k.tables != k.pages
    ensures PageOps(k, newTable)[n] == Acq(k.pages) ==> HeldAfter([], PageOps(k, newTable), n) == [k.tables]
    ensures PageOps(k, newTable)[n] == Acq(k.tables) ==> HeldAfter([], PageOps(k, newTable), n) == []
  {
    hide HeldAfter;
    var ops := PageOps(k, newTable);
    NothingDone([], ops);
    FirstTaken(ops, k.tables);
    assert ops == if newTable then [Acq(k.tables), Acq(k.pages), Rel(k.pages), Rel(k.tables)]
                  else [Acq(k.tables), Rel(k.tables)];
  }

  lemma {:induction false} FirstTaken(ops: seq<Op>, l: nat)
    requires |ops| > 0 && ops[0] == Acq(l)
    ensures HeldAfter([], ops, 1) == [l]
  {
    NothingDone([] + [l], ops[1..]);
  }

  // ---------- how often each lock is taken ----------

  /** How often a lock is taken. */
  function Taken(ops: seq<Op>, l: nat): nat {
    if ops == [] then 0 else Taken(ops[..|ops| - 1], l) + if ops[|ops| - 1] == Acq(l) then 1 else 0
  }

  function Trues(bs: seq<bool>): nat {
    if bs == [] then 0 else Trues(bs[..|bs| - 1]) + if bs[|bs| - 1] then 1 else 0
  }

  lemma {:induction false} TakenJoin(a: seq<Op>, b: seq<Op>, l: nat)
    ensures Taken(a + b, l) == Taken(a, l) + Taken(b, l)
    decreases |b|
  {
    if b == [] {
      assert a + b == a;
    } else {
      TakenJoin(a, b[..|b| - 1], l);
      assert (a + b)[..|a + b| - 1] == a + b[..|b| - 1];
    }
  }

  lemma {:induction false} TakenWithin(m: nat, body: seq<Op>, l: nat)
    ensures Taken(Within(m, body), l) == Taken(body, l) + if m == l then 1 else 0
  {
    TakenJoin([Acq(m)] + body, [Rel(m)], l);
    TakenJoin([Acq(m)], body, l);
    TakenOne(Acq(m), l);
    TakenOne(Rel(m), l);
  }

  lemma {:induction false} TakenOne(op: Op, l: nat)
    ensures Taken([op], l) == if op == Acq(l) then 1 else 0
  {
    assert [op][..0] == [];
  }

  predicate Different(k: Locks) {
    && k.slab != k.space && k.slab != k.tables && k.slab != k.pages
    && k.space != k.tables && k.space != k.pages && k.tables != k.pages
  }

  lemma {:induction false} MapTaken(k: Locks, newTables: seq<bool>)
    requires Different(k)
    ensures var ops := MapOps(k, newTables);
            && Taken(ops, k.tables) == |newTables| && Taken(ops, k.pages) == Trues(newTables)
            && Taken(ops, k.space) == 0 && Taken(ops, k.slab) == 0
    decreases |newTables|
  {
    hide Within;
    if newTables != [] {
      var n := |newTables| - 1;
      var body := if newTables[n] then Within(k.pages, []) else [];
      MapTaken(k, newTables[..n]);
      forall l
        ensures Taken(MapOps(k, newTables), l) ==
                  Taken(MapOps(k, newTables[..n]), l) + Taken(body, l) + if k.tables == l then 1 else 0
        ensures Taken(body, l) == if newTables[n] && k.pages == l then 1 else 0
      {
        TakenJoin(MapOps(k, newTables[..n]), Within(k.tables, body), l);
        TakenWithin(k.tables, body, l);
        TakenWithin(k.pages, [], l);
      }
    }
  }

  lemma {:induction false} UnmapTaken(k: Locks, n: nat, l: nat)
    ensures Taken(UnmapOps(k, n), l) == if l == k.tables then n else 0
  {
    if n > 0 {
      UnmapTaken(k, n - 1, l);
      TakenJoin(UnmapOps(k, n - 1), Within(k.tables, []), l);
      TakenWithin(k.tables, [], l);
    }
  }

  lemma {:induction false} ReleaseTaken(k: Locks, n: nat, l: nat)
    requires Different(k)
    ensures Taken(ReleaseOps(k, n), l) == if l == k.tables || l == k.pages then n else 0
  {
    hide Within, UnmapOps;
    if n > 0 {
      ReleaseTaken(k, n - 1, l);
      UnmapTaken(k, 1, l);
      TakenJoin(ReleaseOps(k, n - 1), Within(k.pages, []) + UnmapOps(k, 1), l);
      TakenJoin(Within(k.pages, []), UnmapOps(k, 1), l);
      TakenWithin(k.pages, [], l);
    }
  }

  /** How often a call takes each of its locks: the table lock once for each page mapped or unmapped, the page lock
      once for each block, page or table allocated or freed. */
  lemma {:induction false} CallTaken(k: Locks, call: Call)
    requires Different(k)
    ensures var ops := Ops(k, call);
            match call
            case AllocPages => Taken(ops, k.pages) == 1 && Taken(ops, k.tables) == 0
            case FreePages => Taken(ops, k.pages) == 1 && Taken(ops, k.tables) == 0
            case Map(made) => Taken(ops, k.pages) == Trues(made) && Taken(ops, k.tables) == |made|
            case Unmap(n) => Taken(ops, k.pages) == 0 && Taken(ops, k.tables) == n
            case SpaceAlloc(backed, made) =>
              && Taken(ops, k.space) == 1 && Taken(ops, k.tables) == (if backed then |made| else 0)
              && Taken(ops, k.pages) == if backed then 1 + Trues(made) else 0
            case SpaceFree(backed, n) =>
              && Taken(ops, k.space) == 1 && Taken(ops, k.tables) == Taken(ops, k.pages)
              && Taken(ops, k.pages) == if backed then n else 0
            case SlabAlloc(grows, made) =>
              && Taken(ops, k.slab) == 1 && Taken(ops, k.space) == (if grows then 1 else 0)
              && Taken(ops, k.tables) == (if grows then |made| else 0)
              && Taken(ops, k.pages) == if grows then 1 + Trues(made) else 0
            case SlabFree(shrinks, n) =>
              && Taken(ops, k.slab) == 1 && Taken(ops, k.space) == (if shrinks then 1 else 0)
              && Taken(ops, k.tables) == Taken(ops, k.pages) && Taken(ops, k.pages) == if shrinks then n else 0
  {
    hide Within, MapOps, UnmapOps, ReleaseOps, SpaceAllocOps, SpaceFreeOps;
    forall l
      ensures Taken(Within(k.pages, []), l) == if l == k.pages then 1 else 0
    {
      TakenWithin(k.pages, [], l);
    }
    match call
    case AllocPages =>
    case FreePages =>
    case Map(made) => MapTaken(k, made);
    case Unmap(n) => UnmapTaken(k, n, k.tables); UnmapTaken(k, n, k.pages);
    case SpaceAlloc(backed, made) => SpaceAllocTaken(k, backed, made);
    case SpaceFree(backed, n) => SpaceFreeTaken(k, backed, n);
    case SlabAlloc(grows, made) =>
      SpaceAllocTaken(k, true, made);
      SlabTaken(k, if grows then SpaceAllocOps(k, true, made) else []);
    case SlabFree(shrinks, n) =>
      SpaceFreeTaken(k, true, n);
      SlabTaken(k, if shrinks then SpaceFreeOps(k, true, n) else []);
  }

  lemma {:induction false} SlabTaken(k: Locks, body: seq<Op>)
    requires Different(k)
    ensures var ops := Within(k.slab, body);
            && Taken(ops, k.slab) == Taken(body, k.slab) + 1 && Taken(ops, k.space) == Taken(body, k.space)
            && Taken(ops, k.tables) == Taken(body, k.tables) && Taken(ops, k.pages) == Taken(body, k.pages)
  {
    TakenWithin(k.slab, body, k.slab);
    TakenWithin(k.slab, body, k.space);
    TakenWithin(k.slab, body, k.tables);
    TakenWithin(k.slab, body, k.pages);
  }

  lemma {:induction false} SpaceAllocTaken(k: Locks, backed: bool, made: seq<bool>)
    requires Different(k)
    ensures var ops := SpaceAllocOps(k, backed, made);
            && Taken(ops, k.slab) == 0 && Taken(ops, k.space) == 1
            && Taken(ops, k.tables) == (if backed then |made| else 0)
            && Taken(ops, k.pages) == if backed then 1 + Trues(made) else 0
  {
    hide Within, MapOps;
    MapTaken(k, made);
    var body := if backed then Within(k.pages, []) + MapOps(k, made) else [];
    forall l
      ensures Taken(SpaceAllocOps(k, backed, made), l) == Taken(body, l) + if k.space == l then 1 else 0
      ensures backed ==> Taken(body, l) == Taken(MapOps(k, made), l) + if k.pages == l then 1 else 0
    {
      TakenWithin(k.space, body, l);
      TakenWithin(k.pages, [], l);
      TakenJoin(Within(k.pages, []), MapOps(k, made), l);
    }
  }

  lemma {:induction false} SpaceFreeTaken(k: Locks, backed: bool, n: nat)
    requires Different(k)
    ensures var ops := SpaceFreeOps(k, backed, n);
            && Taken(ops, k.slab) == 0 && Taken(ops, k.space) == 1
            && Taken(ops, k.tables) == (if backed then n else 0) && Taken(ops, k.pages) == if backed then n else 0
  {
    hide Within, ReleaseOps;
    var body := if backed then ReleaseOps(k, n) else [];
    forall l
      ensures Taken(SpaceFreeOps(k, backed, n), l) == Taken(body, l) + if k.space == l then 1 else 0
      ensures backed ==> Taken(body, l) == if l == k.tables || l == k.pages then n else 0
    {
      TakenWithin(k.space, body, l);
      ReleaseTaken(k, n, l);
    }
  }

  // ---------- whole programs ----------

  /** The lock operations of a list of calls, each with its own locks. */
  function Program(calls: seq<(Locks, Call)>): seq<Op> {
    if calls == [] then [] else Ops(calls[0].0, calls[0].1) + Program(calls[1..])
  }

  lemma {:induction false} ProgramDisciplined(kinds: seq<Kind>, calls: seq<(Locks, Call)>)
    requires forall i :: 0 <= i < |calls| ==> Fit(kinds, calls[i].0)
    ensures Disciplined([], Program(calls), |kinds|, RankOf(kinds))
    decreases |calls|
  {
    hide Ops, Fit;
    if calls != [] {
      ProgramDisciplined(kinds, calls[1..]);
      CallAbove(kinds, calls[0].0, calls[0].1);
    }
  }

  /** CPUs about to run memory calls, on free locks of the given kinds. */
  ghost predicate Kernel(w: World, kinds: seq<Kind>) {
    && |w.locks| == |kinds| && (forall l :: 0 <= l < |w.locks| ==> !w.locks[l].val)
    && forall c :: 0 <= c < |w.cpus| ==> Starts(w.cpus[c], kinds)
  }

  ghost predicate Starts(cpu: Cpu, kinds: seq<Kind>) {
    && cpu.pc.Idle? && cpu.held == []
    && exists calls: seq<(Locks, Call)> ::
         cpu.todo == Program(calls) && forall i :: 0 <= i < |calls| ==> Fit(kinds, calls[i].0)
  }

  lemma {:induction false} StartReady(cpu: Cpu, kinds: seq<Kind>)
    requires Starts(cpu, kinds)
    ensures Ordered(cpu, |kinds|, RankOf(kinds)) && Proper([], cpu.todo, |kinds|)
  {
    hide Program, Disciplined, Fit, Proper;
    var calls: seq<(Locks, Call)> :|
      cpu.todo == Program(calls) && forall i :: 0 <= i < |calls| ==> Fit(kinds, calls[i].0);
    ProgramDisciplined(kinds, calls);
    DisciplinedProper([], cpu.todo, |kinds|, RankOf(kinds));
  }

  lemma {:induction false} KernelReady(w: World, kinds: seq<Kind>)
    requires Kernel(w, kinds)
    ensures Initial(w) && AllOrdered(w, RankOf(kinds)) && Ranked(w, RankOf(kinds), 4)
  {
    hide Proper, Ordered;
    forall c | 0 <= c < |w.cpus|
      ensures Ordered(w.cpus[c], |w.locks|, RankOf(kinds)) && Proper([], w.cpus[c].todo, |w.locks|)
    {
      StartReady(w.cpus[c], kinds);
    }
  }

  /** Any number of CPUs, any memory calls, any interleaving: at every point no lock has two holders, no
      CPU waits for itself through others, and all calls can still be brought to their end. */
  lemma {:induction false} KernelSafe(w: World, kinds: seq<Kind>, schedule: seq<nat>, w': World)
    requires Kernel(w, kinds) && Runs(w, schedule, w')
    ensures Good(w')
    ensures forall path :: |path| > 1 && WaitPath(w', path) ==> path[0] != path[|path| - 1]
    ensures exists more, end :: Runs(w', more, end) && AllFinished(end)
  {
    hide Runs, Kernel, WellFormed, Exclusive, AllOrdered, WaitPath, Ranked;
    var rank := RankOf(kinds);
    KernelReady(w, kinds);
    InitialGood(w);
    RunsOrdered(w, schedule, w', rank);
    forall path | |path| > 1 && WaitPath(w', path)
      ensures path[0] != path[|path| - 1]
    {
      NoWaitCycle(w', path, rank);
    }
    RankedKept(w, w', rank);
    var more, end := CanFinish(w', rank, 4);
  }

  lemma {:induction false} RankedKept(w: World, w': World, rank: nat -> nat)
    requires Ranked(w, rank, 4) && |w'.locks| == |w.locks|
    ensures Ranked(w', rank, 4)
  {
  }

  /** Any schedule that gives each CPU a turn again and again brings all memory calls to their end. */
  lemma {:induction false} KernelFinishes(w: World, kinds: seq<Kind>, rounds: seq<seq<nat>>, w': World)
    requires Kernel(w, kinds) && Runs(w, Flatten(rounds), w')
    requires Fair(rounds, |w.cpus|) && |rounds| >= Total(w.cpus)
    ensures AllFinished(w')
  {
    hide Runs, Kernel, WellFormed, Exclusive, AllOrdered, Ranked, Total;
    KernelReady(w, kinds);
    InitialGood(w);
    FairFinishes(w, rounds, w', RankOf(kinds), 4);
  }

  /** One CPU: through any memory calls, interrupts are off whenever a lock is held and as before
      whenever none is. */
  lemma {:induction false} KernelInterrupts(w: World, kinds: seq<Kind>)
    requires Kernel(w, kinds) && |w.cpus| == 1
    ensures AlwaysRestored(w)
  {
    hide Kernel, AllOrdered, Ranked, Initial, AlwaysRestored;
    KernelReady(w, kinds);
    OneCpuRestored(w, RankOf(kinds));
  }

  /** Two CPUs, both with interrupts on, one in alloc_pages and the other in vmspace_alloc: one takes the
      page lock outermost, the other inside the space lock, and some run does not restore the flags. */
  lemma {:induction false} TwoCallersNotRestored(w: World, kinds: seq<Kind>)
    requires Kernel(w, kinds) && kinds == [Slab, Space, Tables, Pages] && |w.cpus| == 2
    requires w.cpus[0].flag && w.cpus[0].todo == Program([(Locks(0, 1, 2, 3), AllocPages)])
    requires w.cpus[1].flag && w.cpus[1].todo == Program([(Locks(0, 1, 2, 3), SpaceAlloc(true, []))])
    ensures !AlwaysRestored(w)
  {
    hide Kernel, AllOrdered, Ranked, Initial, AlwaysRestored;
    KernelReady(w, kinds);
    RestoredIff(w, RankOf(kinds));
    assert w.cpus[0].todo == [Acq(3), Rel(3)];
    assert w.cpus[1].todo == [Acq(1), Acq(3), Rel(3), Rel(1)];
    assert Uses(w.cpus[0], 3, true);
    assert Saves([] + [1], w.cpus[1].todo[1..], true, 3, false);
    assert Uses(w.cpus[1], 3, false);
  }
}
