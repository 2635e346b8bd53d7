/** Spinlocks (locking.c) on any number of CPUs, one atomic access at a time. */
module Spinlocks {

  datatype Op = Acq(l: nat) | Rel(l: nat)

  /** Where a CPU is: between lock calls, or before one of the accesses inside a call. */
  datatype Pc =
    | Idle
    | Saved(l: nat, was: bool)      // spinlock_acquire has read the interrupt flag
    | Spinning(l: nat, was: bool)   // ... and switched interrupts off
    | Won(l: nat, was: bool)        // ... and swapped 0 for 1 in lock->val
    | Dropping(l: nat)              // spinlock_release is about to swap 1 for 0
    | Restoring(l: nat)             // ... and about to read lock->interrupts

  datatype Cpu = Cpu(flag: bool, pc: Pc, held: seq<nat>, todo: seq<Op>)

  /** spinlock_t. */
  datatype Cell = Cell(val: bool, interrupts: bool)

  datatype World = World(cpus: seq<Cpu>, locks: seq<Cell>)

  function Without(s: seq<nat>, l: nat): (r: seq<nat>)
    ensures forall x :: x in r <==> x in s && x != l
    ensures |r| <= |s|
  {
    if s == [] then [] else
      var most := Without(s[..|s| - 1], l);
      if s[|s| - 1] == l then most else most + [s[|s| - 1]]
  }

  /** The locks a CPU holds once the call it is in has returned. */
  function Future(cpu: Cpu): seq<nat> {
    match cpu.pc
    case Saved(l, was) => cpu.held + [l]
    case Spinning(l, was) => cpu.held + [l]
    case Won(l, was) => cpu.held + [l]
    case Dropping(l) => Without(cpu.held, l)
    case Idle => cpu.held
    case Restoring(l) => cpu.held
  }

  /** A program that uses n locks and releases only locks it holds. */
  predicate Proper(held: seq<nat>, todo: seq<Op>, n: nat)
    decreases |todo|
  {
    if todo == [] then true else
      match todo[0]
      case Acq(l) => l < n && Proper(held + [l], todo[1..], n)
      case Rel(l) => l in held && Proper(Without(held, l), todo[1..], n)
  }

  predicate WellFormed(w: World) {
    forall c :: 0 <= c < |w.cpus| ==> FormedCpu(w.cpus[c], |w.locks|)
  }

  predicate FormedCpu(cpu: Cpu, n: nat) {
    && (forall l :: l in cpu.held ==> l < n)
    && (!cpu.pc.Idle? ==> cpu.pc.l < n)
    && (cpu.pc.Won? ==> cpu.pc.l !in cpu.held)
    && (cpu.pc.Dropping? ==> cpu.pc.l in cpu.held)
    && Proper(Future(cpu), cpu.todo, n)
  }

  /** One step of one CPU.  A CPU that spins, or has finished, leaves the world as it is. */
  function Step(w: World, c: nat): World
    requires c < |w.cpus| && WellFormed(w)
  {
    var cpu := w.cpus[c];
    match cpu.pc
    case Idle =>
      if cpu.todo == [] then w else
        (match cpu.todo[0]
         case Acq(l) => Put(w, c, cpu.(pc := Saved(l, cpu.flag), todo := cpu.todo[1..]))
         case Rel(l) => Put(w, c, cpu.(pc := Dropping(l), todo := cpu.todo[1..])))
    case Saved(l, was) => Put(w, c, cpu.(pc := Spinning(l, was), flag := false))
    case Spinning(l, was) =>
      if w.locks[l].val then w else
        SetLock(Put(w, c, cpu.(pc := Won(l, was))), l, w.locks[l].(val := true))
    case Won(l, was) =>
      SetLock(Put(w, c, cpu.(pc := Idle, held := cpu.held + [l])), l, w.locks[l].(interrupts := was))
    case Dropping(l) =>
      if !w.locks[l].val then w else
        SetLock(Put(w, c, cpu.(pc := Restoring(l), held := Without(cpu.held, l))), l, w.locks[l].(val := false))
    case Restoring(l) => Put(w, c, cpu.(pc := Idle, flag := cpu.flag || w.locks[l].interrupts))
  }

  function Put(w: World, c: nat, cpu: Cpu): World
    requires c < |w.cpus|
  {
    w.(cpus := w.cpus[c := cpu])
  }

  function SetLock(w: World, l: nat, cell: Cell): World
    requires l < |w.locks|
  {
    w.(locks := w.locks[l := cell])
  }

  // ---------- mutual exclusion ----------

  /** The CPU is past the swap that takes the lock and before the one that gives it up. */
  predicate Owns(cpu: Cpu, l: nat) {
    l in cpu.held || (cpu.pc.Won? && cpu.pc.l == l)
  }

  /** No lock has two owners, and lock->val is 1 exactly when the lock has an owner. */
  ghost predicate Exclusive(w: World) {
    && (forall c, d, l :: 0 <= c < |w.cpus| && 0 <= d < |w.cpus| && Owns(w.cpus[c], l) && Owns(w.cpus[d], l) ==> c == d)
    && (forall l :: 0 <= l < |w.locks| ==> (w.locks[l].val <==> Owned(w, l)))
  }

  ghost predicate Owned(w: World, l: nat) {
    exists c :: 0 <= c < |w.cpus| && Owns(w.cpus[c], l)
  }

  ghost predicate Good(w: World) { WellFormed(w) && Exclusive(w) }

  /** What one CPU does to its own record, in a state where the locks are exclusive. */
  lemma {:induction false} StepFormed(w: World, c: nat)
    requires Good(w) && c < |w.cpus|
    ensures WellFormed(Step(w, c))
    ensures |Step(w, c).cpus| == |w.cpus| && |Step(w, c).locks| == |w.locks|
  {
    hide Proper, Future, Without;
    if w.cpus[c].pc.Spinning? && Owns(w.cpus[c], w.cpus[c].pc.l) { assert Owned(w, w.cpus[c].pc.l); }
    NextFormed(w, c);
    var w' := Step(w, c);
    assert FormedCpu(w.cpus[c], |w.locks|);
    FormedExcept(w, w', c);
  }

  lemma {:induction false} NextFormed(w: World, c: nat)
    requires WellFormed(w) && c < |w.cpus|
    requires w.cpus[c].pc.Spinning? && Owns(w.cpus[c], w.cpus[c].pc.l) ==> w.locks[w.cpus[c].pc.l].val
    ensures c < |Step(w, c).cpus| && FormedCpu(Step(w, c).cpus[c], |w.locks|)
  {
    hide Without;
    var cpu := w.cpus[c];
    assert FormedCpu(cpu, |w.locks|);
    match cpu.pc
    case Idle =>
    case Saved(l, was) =>
    case Spinning(l, was) =>
    case Won(l, was) =>
    case Dropping(l) =>
    case Restoring(l) =>
  }

  lemma {:induction false} FormedExcept(w: World, w': World, c: nat)
    requires WellFormed(w) && c < |w.cpus| == |w'.cpus| && |w'.locks| == |w.locks| && FormedCpu(w'.cpus[c], |w.locks|)
    requires forall d :: 0 <= d < |w.cpus| && d != c ==> w'.cpus[d] == w.cpus[d]
    ensures WellFormed(w')
  {
    hide FormedCpu;
  }

  /** How the owner of each lock changes. */
  lemma {:induction false} StepOwns(w: World, c: nat, d: nat, l: nat)
    requires Good(w) && c < |w.cpus| && d < |w.cpus| && l < |w.locks|
    ensures |Step(w, c).cpus| == |w.cpus| && |Step(w, c).locks| == |w.locks|
    ensures var cpu := w.cpus[c];
            Owns(Step(w, c).cpus[d], l) <==>
              if d == c && cpu.pc.Spinning? && cpu.pc.l == l then !w.locks[l].val || Owns(cpu, l)
              else if d == c && cpu.pc.Dropping? && cpu.pc.l == l then false
              else Owns(w.cpus[d], l)
    ensures var cpu := w.cpus[c];
            Step(w, c).locks[l].val ==
              if cpu.pc.Spinning? && cpu.pc.l == l then true
              else if cpu.pc.Dropping? && cpu.pc.l == l then false
              else w.locks[l].val
  {
    hide Proper, Future;
    var cpu := w.cpus[c];
    assert FormedCpu(cpu, |w.locks|);
    if cpu.pc.Dropping? { assert Owned(w, cpu.pc.l); }
  }

  lemma {:induction false} StepExclusive(w: World, c: nat)
    requires Good(w) && c < |w.cpus|
    ensures Good(Step(w, c)) && |Step(w, c).cpus| == |w.cpus| && |Step(w, c).locks| == |w.locks|
  {
    hide Owns, Step, FormedCpu;
    StepFormed(w, c);
    var w', cpu := Step(w, c), w.cpus[c];
    forall a, b, l | 0 <= a < |w'.cpus| && 0 <= b < |w'.cpus| && Owns(w'.cpus[a], l) && Owns(w'.cpus[b], l)
      ensures a == b
    {
      OwnsInRange(w', a, l);
      StepOwns(w, c, a, l);
      StepOwns(w, c, b, l);
    }
    forall l | 0 <= l < |w'.locks|
      ensures w'.locks[l].val <==> Owned(w', l)
    {
      StepOwned(w, c, l);
    }
  }

  lemma {:induction false} StepOwned(w: World, c: nat, l: nat)
    requires Good(w) && c < |w.cpus| && l < |w.locks| && l < |Step(w, c).locks|
    ensures Step(w, c).locks[l].val <==> Owned(Step(w, c), l)
  {
    hide Owns, Step, FormedCpu;
    var w', cpu := Step(w, c), w.cpus[c];
    StepOwns(w, c, c, l);
    if Owned(w', l) {
      var d :| 0 <= d < |w'.cpus| && Owns(w'.cpus[d], l);
      StepOwns(w, c, d, l);
      assert !(cpu.pc.Dropping? && cpu.pc.l == l && d != c) by {
        if cpu.pc.Dropping? && cpu.pc.l == l && d != c {
          DropperOwns(w, c);
        }
      }
    }
    if w'.locks[l].val && !(cpu.pc.Spinning? && cpu.pc.l == l && !w.locks[l].val) {
      var d :| 0 <= d < |w.cpus| && Owns(w.cpus[d], l);
      StepOwns(w, c, d, l);
    }
  }

  lemma {:induction false} DropperOwns(w: World, c: nat)
    requires WellFormed(w) && c < |w.cpus| && w.cpus[c].pc.Dropping?
    ensures Owns(w.cpus[c], w.cpus[c].pc.l)
  {
    hide Proper, Future;
    assert FormedCpu(w.cpus[c], |w.locks|);
  }

  lemma {:induction false} OwnsInRange(w: World, c: nat, l: nat)
    requires WellFormed(w) && c < |w.cpus| && Owns(w.cpus[c], l)
    ensures l < |w.locks|
  {
    hide Proper, Future;
    assert FormedCpu(w.cpus[c], |w.locks|);
  }

  /** All the steps of a schedule, which names the CPU that moves next. */
  predicate Runs(w: World, schedule: seq<nat>, w': World)
    decreases |schedule|
  {
    if schedule == [] then w == w' else
      schedule[0] < |w.cpus| && WellFormed(w) && Runs(Step(w, schedule[0]), schedule[1..], w')
  }

  /** Nobody is in a lock call or holds a lock, and the programs are proper. */
  ghost predicate Initial(w: World) {
    && (forall c :: 0 <= c < |w.cpus| ==>
          w.cpus[c].pc.Idle? && w.cpus[c].held == [] && Proper([], w.cpus[c].todo, |w.locks|))
    && (forall l :: 0 <= l < |w.locks| ==> !w.locks[l].val)
  }

  /** For any number of CPUs, any programs and any interleaving: at most one CPU holds a lock. */
  lemma {:induction false} MutualExclusion(w: World, schedule: seq<nat>, w': World)
    requires Initial(w) && Runs(w, schedule, w')
    ensures Good(w') && |w'.cpus| == |w.cpus| && |w'.locks| == |w.locks|
  {
    InitialGood(w);
    RunsGood(w, schedule, w');
  }

  lemma {:induction false} RunsGood(w: World, schedule: seq<nat>, w': World)
    requires Good(w) && Runs(w, schedule, w')
    ensures Good(w') && |w'.cpus| == |w.cpus| && |w'.locks| == |w.locks|
    decreases |schedule|
  {
    hide Step, WellFormed, Exclusive;
    if schedule != [] {
      StepExclusive(w, schedule[0]);
      RunsGood(Step(w, schedule[0]), schedule[1..], w');
    }
  }

  /** The loop in spinlock_release never spins. */
  lemma {:induction false} ReleaseAtOnce(w: World, c: nat)
    requires Good(w) && c < |w.cpus| && w.cpus[c].pc.Dropping?
    ensures Step(w, c).cpus[c].pc == Restoring(w.cpus[c].pc.l)
  {
    var l := w.cpus[c].pc.l;
    assert FormedCpu(w.cpus[c], |w.locks|);
    assert Owned(w, l);
  }

  // ---------- the order of locks ----------

  /** A program that takes locks in increasing rank, releases the last one taken first and ends with
      none. */
  ghost predicate Disciplined(held: seq<nat>, todo: seq<Op>, n: nat, rank: nat -> nat)
    decreases |todo|
  {
    if todo == [] then held == [] else
      match todo[0]
      case Acq(l) => l < n && Below(held, l, rank) && Disciplined(held + [l], todo[1..], n, rank)
      case Rel(l) => held != [] && held[|held| - 1] == l && Disciplined(held[..|held| - 1], todo[1..], n, rank)
  }

  ghost predicate Below(held: seq<nat>, l: nat, rank: nat -> nat) {
    forall h :: h in held ==> rank(h) < rank(l)
  }

  /** Held locks have increasing ranks. */
  ghost predicate Climbing(held: seq<nat>, rank: nat -> nat) {
    forall i, j :: 0 <= i < j < |held| ==> rank(held[i]) < rank(held[j])
  }

  lemma {:induction false} WithoutLast(held: seq<nat>, rank: nat -> nat)
    requires held != [] && Climbing(held, rank)
    ensures Without(held, held[|held| - 1]) == held[..|held| - 1] && Climbing(held[..|held| - 1], rank)
  {
    var l, most := held[|held| - 1], held[..|held| - 1];
    forall x | x in most ensures x != l { var i :| 0 <= i < |most| && most[i] == x; assert held[i] == x; }
    WithoutNone(most, l);
  }

  lemma {:induction false} WithoutNone(s: seq<nat>, l: nat)
    requires l !in s
    ensures Without(s, l) == s
  {
    if s != [] {
      WithoutNone(s[..|s| - 1], l);
    }
  }

  lemma {:induction false} ClimbMore(held: seq<nat>, l: nat, rank: nat -> nat)
    requires Climbing(held, rank) && Below(held, l, rank)
    ensures Climbing(held + [l], rank)
  {
  }

  lemma {:induction false} DisciplinedProper(held: seq<nat>, todo: seq<Op>, n: nat, rank: nat -> nat)
    requires Climbing(held, rank) && Disciplined(held, todo, n, rank)
    ensures Proper(held, todo, n)
    decreases |todo|
  {
    if todo != [] {
      match todo[0]
      case Acq(l) =>
        ClimbMore(held, l, rank);
        DisciplinedProper(held + [l], todo[1..], n, rank);
      case Rel(l) =>
        WithoutLast(held, rank);
        DisciplinedProper(held[..|held| - 1], todo[1..], n, rank);
    }
  }

  /** A CPU inside such a program. */
  ghost predicate Ordered(cpu: Cpu, n: nat, rank: nat -> nat) {
    Climbing(cpu.held, rank) && Climbing(Future(cpu), rank) && Disciplined(Future(cpu), cpu.todo, n, rank)
    && (cpu.pc.Dropping? ==> cpu.held != [] && cpu.held[|cpu.held| - 1] == cpu.pc.l)
  }

  ghost predicate AllOrdered(w: World, rank: nat -> nat) {
    forall c :: 0 <= c < |w.cpus| ==> Ordered(w.cpus[c], |w.locks|, rank)
  }

  lemma {:induction false} StepOrdered(w: World, c: nat, rank: nat -> nat)
    requires Good(w) && AllOrdered(w, rank) && c < |w.cpus|
    ensures Good(Step(w, c)) && AllOrdered(Step(w, c), rank)
    ensures |Step(w, c).cpus| == |w.cpus| && |Step(w, c).locks| == |w.locks|
  {
    hide Exclusive, FormedCpu;
    StepExclusive(w, c);
    CpuOrdered(w, c, rank);
    var w' := Step(w, c);
    OthersKept(w, c);
    forall d | 0 <= d < |w'.cpus|
      ensures Ordered(w'.cpus[d], |w'.locks|, rank)
    {
    }
  }

  lemma {:induction false} OthersKept(w: World, c: nat)
    requires WellFormed(w) && c < |w.cpus|
    ensures |Step(w, c).cpus| == |w.cpus|
    ensures forall d :: 0 <= d < |w.cpus| && d != c ==> Step(w, c).cpus[d] == w.cpus[d]
  {
    hide Proper, Future, Without;
    assert FormedCpu(w.cpus[c], |w.locks|);
  }

  lemma {:induction false} CpuOrdered(w: World, c: nat, rank: nat -> nat)
    requires WellFormed(w) && c < |w.cpus| && Ordered(w.cpus[c], |w.locks|, rank)
    ensures |Step(w, c).cpus| == |w.cpus| && Ordered(Step(w, c).cpus[c], |w.locks|, rank)
  {
    hide FormedCpu, Proper, Climbing, Below, Without;
    OthersKept(w, c);
    var cpu := w.cpus[c];
    match cpu.pc
    case Idle =>
      if cpu.todo != [] {
        match cpu.todo[0]
        case Acq(l) => ClimbMore(cpu.held, l, rank);
        case Rel(l) => WithoutLast(cpu.held, rank);
      }
    case Saved(l, was) =>
    case Spinning(l, was) => Indices(w, c);
    case Won(l, was) => Indices(w, c);
    case Dropping(l) => Indices(w, c);
    case Restoring(l) => Indices(w, c);
  }

  lemma {:induction false} Indices(w: World, c: nat)
    requires WellFormed(w) && c < |w.cpus|
    ensures !w.cpus[c].pc.Idle? ==> w.cpus[c].pc.l < |w.locks|
  {
    assert FormedCpu(w.cpus[c], |w.locks|);
  }

  /** The CPU spins on a lock that another CPU owns. */
  predicate Blocked(w: World, c: nat)
    requires c < |w.cpus|
  {
    w.cpus[c].pc.Spinning? && w.cpus[c].pc.l < |w.locks| && w.locks[w.cpus[c].pc.l].val
  }

  ghost predicate WaitsFor(w: World, c: nat, d: nat) {
    c < |w.cpus| && d < |w.cpus| && w.cpus[c].pc.Spinning? && Owns(w.cpus[d], w.cpus[c].pc.l)
  }

  /** Along a chain of waiting CPUs the ranks waited for go up. */
  lemma {:induction false} WaitClimbs(w: World, c: nat, d: nat, rank: nat -> nat)
    requires AllOrdered(w, rank) && WaitsFor(w, c, d) && w.cpus[d].pc.Spinning?
    ensures rank(w.cpus[c].pc.l) < rank(w.cpus[d].pc.l)
  {
    var cpu, l := w.cpus[d], w.cpus[c].pc.l;
    assert Ordered(cpu, |w.locks|, rank);
    var i :| 0 <= i < |cpu.held| && cpu.held[i] == l;
    assert Future(cpu)[i] == l && Future(cpu)[|cpu.held|] == cpu.pc.l;
  }

  ghost predicate WaitPath(w: World, path: seq<nat>) {
    |path| > 0 && forall i :: 0 <= i < |path| - 1 ==> WaitsFor(w, path[i], path[i + 1])
  }

  /** No CPU waits for itself, directly or through others. */
  lemma {:induction false} NoWaitCycle(w: World, path: seq<nat>, rank: nat -> nat)
    requires AllOrdered(w, rank) && WaitPath(w, path) && |path| > 1
    ensures path[0] != path[|path| - 1]
  {
    var n := |path| - 1;
    assert WaitsFor(w, path[0], path[1]) && WaitsFor(w, path[n - 1], path[n]);
    if path[0] == path[n] {
      PathClimbs(w, path, n, rank);
    }
  }

  lemma {:induction false} PathClimbs(w: World, path: seq<nat>, n: nat, rank: nat -> nat)
    requires AllOrdered(w, rank) && WaitPath(w, path) && 0 < n < |path|
    requires path[n] < |w.cpus| && w.cpus[path[n]].pc.Spinning?
    ensures path[0] < |w.cpus| && w.cpus[path[0]].pc.Spinning?
    ensures rank(w.cpus[path[0]].pc.l) < rank(w.cpus[path[n]].pc.l)
  {
    hide WaitsFor, Ordered;
    assert WaitsFor(w, path[n - 1], path[n]);
    WaitFacts(w, path[n - 1], path[n]);
    WaitClimbs(w, path[n - 1], path[n], rank);
    if n > 1 { PathClimbs(w, path, n - 1, rank); }
  }

  lemma {:induction false} WaitFacts(w: World, c: nat, d: nat)
    requires WaitsFor(w, c, d)
    ensures c < |w.cpus| && d < |w.cpus| && w.cpus[c].pc.Spinning?
  {
  }

  // ---------- progress ----------

  /** The number of steps a CPU still has to take. */
  function Work(cpu: Cpu): nat {
    4 * |cpu.todo| +
    match cpu.pc
    case Idle => 0
    case Saved(l, was) => 3
    case Spinning(l, was) => 2
    case Won(l, was) => 1
    case Dropping(l) => 2
    case Restoring(l) => 1
  }

  function Total(cpus: seq<Cpu>): nat {
    if cpus == [] then 0 else Work(cpus[0]) + Total(cpus[1..])
  }

  lemma {:induction false} TotalUpdate(cpus: seq<Cpu>, c: nat, cpu: Cpu)
    requires c < |cpus|
    ensures Total(cpus[c := cpu]) == Total(cpus) - Work(cpus[c]) + Work(cpu)
  {
    hide Work;
    var after := cpus[c := cpu];
    if c == 0 {
      assert after[1..] == cpus[1..];
    } else {
      TotalUpdate(cpus[1..], c - 1, cpu);
      assert after[1..] == cpus[1..][c - 1 := cpu];
    }
  }

  predicate Finished(cpu: Cpu) { cpu.pc.Idle? && cpu.todo == [] }

  /** A CPU that has not finished and does not spin takes a real step, and no step is wasted. */
  lemma {:induction false} StepWorks(w: World, c: nat)
    requires Good(w) && c < |w.cpus|
    ensures Step(w, c) == w <==> Finished(w.cpus[c]) || Blocked(w, c)
    ensures Step(w, c) != w ==> Total(Step(w, c).cpus) < Total(w.cpus)
  {
    hide Total, Proper, Future, Without;
    OthersKept(w, c);
    Indices(w, c);
    var cpu, w' := w.cpus[c], Step(w, c);
    if cpu.pc.Dropping? { ReleaseAtOnce(w, c); }
    assert Step(w, c) == w <==> Finished(cpu) || Blocked(w, c);
    if w' != w {
      TotalUpdate(w.cpus, c, w'.cpus[c]);
      assert w'.cpus == w.cpus[c := w'.cpus[c]];
      assert Work(w'.cpus[c]) < Work(cpu);
    }
  }

  ghost predicate Ranked(w: World, rank: nat -> nat, top: nat) {
    forall l :: 0 <= l < |w.locks| ==> rank(l) < top
  }

  /** Whoever is blocked, the chain of owners ends at a CPU that can move. */
  lemma {:induction false} ChainEnds(w: World, c: nat, rank: nat -> nat, top: nat) returns (d: nat)
    requires Good(w) && AllOrdered(w, rank) && Ranked(w, rank, top) && c < |w.cpus| && Blocked(w, c)
    ensures d < |w.cpus| && !Finished(w.cpus[d]) && !Blocked(w, d)
    decreases top - rank(w.cpus[c].pc.l)
  {
    hide Ordered, FormedCpu;
    var l := w.cpus[c].pc.l;
    assert Owned(w, l);
    d :| 0 <= d < |w.cpus| && Owns(w.cpus[d], l);
    OwnerBusy(w, d, l, rank);
    if Blocked(w, d) {
      WaitClimbs(w, c, d, rank);
      d := ChainEnds(w, d, rank, top);
    }
  }

  lemma {:induction false} OwnerBusy(w: World, d: nat, l: nat, rank: nat -> nat)
    requires AllOrdered(w, rank) && d < |w.cpus| && Owns(w.cpus[d], l)
    ensures !Finished(w.cpus[d])
  {
    assert Ordered(w.cpus[d], |w.locks|, rank);
  }

  ghost predicate AllFinished(w: World) { forall c :: 0 <= c < |w.cpus| ==> Finished(w.cpus[c]) }

  /** No deadlock: from any state of ordered programs the CPUs can be scheduled to the end, where all
      locks are free. */
  lemma {:induction false} CanFinish(w: World, rank: nat -> nat, top: nat) returns (schedule: seq<nat>, w': World)
    requires Good(w) && AllOrdered(w, rank) && Ranked(w, rank, top)
    ensures Runs(w, schedule, w') && AllFinished(w') && |schedule| <= Total(w.cpus)
    ensures forall l :: 0 <= l < |w'.locks| ==> !w'.locks[l].val
    decreases Total(w.cpus)
  {
    hide Ordered, FormedCpu, Step, Total, Blocked, Finished;
    if AllFinished(w) {
      schedule, w' := [], w;
      FinishedFree(w, rank);
    } else {
      var d :| 0 <= d < |w.cpus| && !Finished(w.cpus[d]);
      if Blocked(w, d) { d := ChainEnds(w, d, rank, top); }
      StepWorks(w, d);
      StepOrdered(w, d, rank);
      schedule, w' := CanFinish(Step(w, d), rank, top);
      schedule := [d] + schedule;
    }
  }

  lemma {:induction false} FinishedFree(w: World, rank: nat -> nat)
    requires Good(w) && AllOrdered(w, rank) && AllFinished(w)
    ensures forall l :: 0 <= l < |w.locks| ==> !w.locks[l].val
  {
    hide FormedCpu, Ordered, Owns, Finished;
    forall l | 0 <= l < |w.locks|
      ensures !w.locks[l].val
    {
      if w.locks[l].val {
        var d :| 0 <= d < |w.cpus| && Owns(w.cpus[d], l);
        OwnerBusy(w, d, l, rank);
      }
    }
  }

  lemma {:induction false} InitialGood(w: World)
    requires Initial(w)
    ensures Good(w)
  {
  }

  lemma {:induction false} RunsOrdered(w: World, schedule: seq<nat>, w': World, rank: nat -> nat)
    requires Good(w) && AllOrdered(w, rank) && Runs(w, schedule, w')
    ensures Good(w') && AllOrdered(w', rank) && |w'.cpus| == |w.cpus| && |w'.locks| == |w.locks|
    decreases |schedule|
  {
    hide Step, WellFormed, Exclusive, Ordered;
    if schedule != [] {
      StepOrdered(w, schedule[0], rank);
      RunsOrdered(Step(w, schedule[0]), schedule[1..], w', rank);
    }
  }

  lemma {:induction false} RunsCons(w: World, c: nat, schedule: seq<nat>, w': World)
    requires c < |w.cpus| && WellFormed(w) && Runs(Step(w, c), schedule, w')
    ensures Runs(w, [c] + schedule, w')
  {
    assert ([c] + schedule)[1..] == schedule;
  }

  lemma {:induction false} RunsJoin(a: World, s: seq<nat>, b: World, t: seq<nat>, c: World)
    requires Runs(a, s, b) && Runs(b, t, c)
    ensures Runs(a, s + t, c)
    decreases |s|
  {
    hide Step, WellFormed;
    if s == [] {
      assert s + t == t;
    } else {
      RunsJoin(Step(a, s[0]), s[1..], b, t, c);
      assert (s + t)[1..] == s[1..] + t;
    }
  }

  lemma {:induction false} RunsNone(w: World)
    ensures Runs(w, [], w)
  {
  }

  // ---------- fair schedules ----------

  /** The steps of a schedule given in rounds. */
  function Flatten(rounds: seq<seq<nat>>): seq<nat> {
    if rounds == [] then [] else rounds[0] + Flatten(rounds[1..])
  }

  /** Every CPU gets a turn in every round. */
  ghost predicate Fair(rounds: seq<seq<nat>>, n: nat) {
    forall i, c: nat :: 0 <= i < |rounds| && c < n ==> c in rounds[i]
  }

  lemma {:induction false} RunsSplit(w: World, s: seq<nat>, t: seq<nat>, w': World) returns (mid: World)
    requires Runs(w, s + t, w')
    ensures Runs(w, s, mid) && Runs(mid, t, w')
    decreases |s|
  {
    hide Step, WellFormed;
    if s == [] {
      mid := w;
      assert s + t == t;
    } else {
      assert (s + t)[1..] == s[1..] + t;
      mid := RunsSplit(Step(w, s[0]), s[1..], t, w');
    }
  }

  /** Work never grows, and shrinks if some CPU named in the schedule could move at its start. */
  lemma {:induction false} RunsWork(w: World, s: seq<nat>, w': World, d: nat)
    requires Good(w) && Runs(w, s, w') && d < |w.cpus|
    ensures Total(w'.cpus) <= Total(w.cpus)
    ensures d in s && Step(w, d) != w ==> Total(w'.cpus) < Total(w.cpus)
    ensures AllFinished(w) ==> w' == w
    decreases |s|
  {
    hide Step, WellFormed, Exclusive, Total, Finished, Blocked;
    if s != [] {
      var h := s[0];
      StepWorks(w, h);
      StepExclusive(w, h);
      RunsWork(Step(w, h), s[1..], w', d);
      if d in s && d != h { assert d in s[1..]; }
    }
  }

  /** A round in which every CPU gets a turn does some of the work left, or there is none. */
  lemma {:induction false} RoundWorks(w: World, round: seq<nat>, w': World, rank: nat -> nat, top: nat)
    requires Good(w) && AllOrdered(w, rank) && Ranked(w, rank, top) && Runs(w, round, w')
    requires forall c: nat :: c < |w.cpus| ==> c in round
    ensures AllFinished(w) ==> w' == w
    ensures !AllFinished(w) ==> Total(w'.cpus) < Total(w.cpus)
  {
    hide Step, WellFormed, Exclusive, Total, Finished, Blocked, Ordered, Runs;
    if AllFinished(w) {
      if |w.cpus| > 0 { RunsWork(w, round, w', 0); } else { NoCpus(w, round, w'); }
    } else {
      var d :| 0 <= d < |w.cpus| && !Finished(w.cpus[d]);
      if Blocked(w, d) { d := ChainEnds(w, d, rank, top); }
      StepWorks(w, d);
      RunsWork(w, round, w', d);
    }
  }

  lemma {:induction false} NoCpus(w: World, s: seq<nat>, w': World)
    requires Runs(w, s, w') && |w.cpus| == 0
    ensures w' == w
  {
  }

  /** No starvation of the whole: every schedule that gives each CPU a turn again and again brings all
      programs to their end, within as many rounds as there is work. */
  lemma {:induction false} FairFinishes(w: World, rounds: seq<seq<nat>>, w': World, rank: nat -> nat, top: nat)
    requires Good(w) && AllOrdered(w, rank) && Ranked(w, rank, top) && Runs(w, Flatten(rounds), w')
    requires Fair(rounds, |w.cpus|) && |rounds| >= Total(w.cpus)
    ensures AllFinished(w')
    decreases |rounds|
  {
    hide Step, WellFormed, Exclusive, Total, Finished, Ordered, Runs;
    if rounds == [] {
      NoWork(w);
      NoSteps(w, w');
    } else {
      var mid := RunsSplit(w, rounds[0], Flatten(rounds[1..]), w');
      RunsOrdered(w, rounds[0], mid, rank);
      RoundWorks(w, rounds[0], mid, rank, top);
      if AllFinished(w) {
        StaysFinished(w, Flatten(rounds[1..]), w');
      } else {
        FairFinishes(mid, rounds[1..], w', rank, top);
      }
    }
  }

  lemma {:induction false} NoSteps(w: World, w': World)
    requires Runs(w, [], w')
    ensures w' == w
  {
  }

  lemma {:induction false} StaysFinished(w: World, s: seq<nat>, w': World)
    requires Good(w) && AllFinished(w) && Runs(w, s, w')
    ensures w' == w
  {
    hide Step, WellFormed, Exclusive, Runs;
    if |w.cpus| > 0 { RunsWork(w, s, w', 0); } else { NoCpus(w, s, w'); }
  }

  lemma {:induction false} NoWork(w: World)
    requires Total(w.cpus) == 0
    ensures AllFinished(w)
  {
    forall c | 0 <= c < |w.cpus|
      ensures Finished(w.cpus[c])
    {
      TotalUpdate(w.cpus, c, w.cpus[c].(todo := [], pc := Idle));
    }
  }
}
