/** What spinlocks do to the interrupt flags of the CPUs (locking.c): each acquire saves the flag in
    lock->interrupts and switches interrupts off, each release switches them on again if the lock says
    so, which it reads after it has given the lock up. */
module Interrupts {
  import opened Spinlocks

  // ---------- what is saved and what should be restored ----------

  /** Locks held after the last one taken is released. */
  function Shorter(held: seq<nat>): seq<nat> { if held == [] then [] else held[..|held| - 1] }

  /** Some acquire of lock l in the program saves the value s, for a CPU whose flag was `was` while it
      held no lock: the outermost acquire saves that flag, an inner one saves that interrupts are off. */
  ghost predicate Saves(held: seq<nat>, todo: seq<Op>, was: bool, l: nat, s: bool)
    decreases |todo|
  {
    if todo == [] then false else
      match todo[0]
      case Acq(k) => (k == l && s == (held == [] && was)) || Saves(held + [k], todo[1..], was, l, s)
      case Rel(k) => Saves(Shorter(held), todo[1..], was, l, s)
  }

  /** The program of a CPU about to start saves s in lock l. */
  ghost predicate Uses(cpu: Cpu, l: nat, s: bool) { Saves([], cpu.todo, cpu.flag, l, s) }

  /** No lock is used by two CPUs to save different values.  This can be read off the programs. */
  ghost predicate Compatible(w: World) {
    forall c, d, l: nat, s, t ::
      (0 <= c < |w.cpus| && 0 <= d < |w.cpus| && c != d && Uses(w.cpus[c], l, s) && Uses(w.cpus[d], l, t)) ==> s == t
  }

  /** Between lock calls every CPU has interrupts off while it holds a lock, and as they were at the
      start while it holds none. */
  ghost predicate Restored(w: World, w': World) {
    |w'.cpus| == |w.cpus| &&
    forall c :: 0 <= c < |w.cpus| && w'.cpus[c].pc.Idle? ==>
      w'.cpus[c].flag == (w'.cpus[c].held == [] && w.cpus[c].flag)
  }

  /** At every point of every run. */
  ghost predicate AlwaysRestored(w: World) {
    forall s, w' :: Runs(w, s, w') ==> Restored(w, w')
  }

  // ---------- compatible programs ----------

  /** The outermost lock remembers the flag as it was, the inner ones that it was off. */
  ghost predicate Remembers(locks: seq<Cell>, held: seq<nat>, was: bool) {
    forall i :: 0 <= i < |held| ==> held[i] < |locks| && locks[held[i]].interrupts == (i == 0 && was)
  }

  predicate Outside(cpu: Cpu, was: bool) { cpu.held == [] && was }

  /** With no lock held the flag is as it was first; with locks held it is off. */
  ghost predicate Guarded(locks: seq<Cell>, cpu: Cpu, was: bool) {
    && Remembers(locks, cpu.held, was)
    && match cpu.pc
       case Idle => cpu.flag == Outside(cpu, was)
       case Saved(l, s) => cpu.flag == s == Outside(cpu, was)
       case Spinning(l, s) => !cpu.flag && s == Outside(cpu, was)
       case Won(l, s) => !cpu.flag && s == Outside(cpu, was)
       case Dropping(l) => !cpu.flag
       case Restoring(l) => !cpu.flag && l < |locks| && locks[l].interrupts == Outside(cpu, was)
  }

  /** What the CPU still saves, or has saved and not yet read back, its program saves. */
  ghost predicate Promised(start: Cpu, cpu: Cpu) {
    && (forall l: nat, s :: Saves(Future(cpu), cpu.todo, start.flag, l, s) ==> Uses(start, l, s))
    && (forall i :: 0 <= i < |cpu.held| ==> Uses(start, cpu.held[i], i == 0 && start.flag))
    && match cpu.pc
       case Idle => true
       case Saved(l, s) => Uses(start, l, Outside(cpu, start.flag))
       case Spinning(l, s) => Uses(start, l, Outside(cpu, start.flag))
       case Won(l, s) => Uses(start, l, Outside(cpu, start.flag))
       case Dropping(l) => true
       case Restoring(l) => Uses(start, l, Outside(cpu, start.flag))
  }

  ghost predicate AllGuarded(w: World, w': World) {
    |w'.cpus| == |w.cpus| && forall c :: 0 <= c < |w.cpus| ==>
      Guarded(w'.locks, w'.cpus[c], w.cpus[c].flag) && Promised(w.cpus[c], w'.cpus[c])
  }

  lemma {:induction false} RememberMore(locks: seq<Cell>, held: seq<nat>, was: bool, l: nat, s: bool)
    requires Remembers(locks, held, was) && l !in held && l < |locks| && s == (held == [] && was)
    ensures Remembers(locks[l := locks[l].(interrupts := s)], held + [l], was)
  {
  }

  lemma {:induction false} RememberLess(locks: seq<Cell>, held: seq<nat>, was: bool)
    requires Remembers(locks, held, was) && held != []
    ensures var l, most := held[|held| - 1], held[..|held| - 1];
            && l < |locks| && Remembers(locks[l := locks[l].(val := false)], most, was)
            && locks[l].interrupts == (most == [] && was)
  {
  }

  lemma {:induction false} RememberSame(locks: seq<Cell>, held: seq<nat>, was: bool, l: nat, cell: Cell)
    requires Remembers(locks, held, was) && l < |locks| && (l in held ==> cell.interrupts == locks[l].interrupts)
    ensures Remembers(locks[l := cell], held, was)
  {
  }

  lemma {:induction false} ReleaseHeld(cpu: Cpu, n: nat, rank: nat -> nat)
    requires Ordered(cpu, n, rank)
    ensures cpu.pc.Idle? && cpu.todo != [] && cpu.todo[0].Rel? ==> cpu.held != []
  {
  }

  /** A CPU's own step keeps its flag guarded. */
  lemma {:induction false} OwnGuarded(w: World, c: nat, was: bool, rank: nat -> nat)
    requires Good(w) && AllOrdered(w, rank) && c < |w.cpus| && Guarded(w.locks, w.cpus[c], was)
    ensures c < |Step(w, c).cpus| && Guarded(Step(w, c).locks, Step(w, c).cpus[c], was)
  {
    hide Proper, Exclusive, Disciplined, Future, Remembers, Without, Climbing;
    var cpu := w.cpus[c];
    assert FormedCpu(cpu, |w.locks|) && Ordered(cpu, |w.locks|, rank);
    ReleaseHeld(cpu, |w.locks|, rank);
    match cpu.pc
    case Idle =>
    case Saved(l, s) =>
    case Spinning(l, s) => RememberSame(w.locks, cpu.held, was, l, w.locks[l].(val := true));
    case Won(l, s) => RememberMore(w.locks, cpu.held, was, l, s);
    case Dropping(l) =>
      WithoutLast(cpu.held, rank);
      RememberLess(w.locks, cpu.held, was);
    case Restoring(l) =>
  }

  lemma {:induction false} SavesNext(held: seq<nat>, todo: seq<Op>, was: bool)
    requires todo != []
    ensures todo[0].Acq? ==> Saves(held, todo, was, todo[0].l, held == [] && was)
    ensures var next := if todo[0].Acq? then held + [todo[0].l] else Shorter(held);
            forall l: nat, s :: Saves(next, todo[1..], was, l, s) ==> Saves(held, todo, was, l, s)
  {
  }

  lemma {:induction false} LastReleased(cpu: Cpu, n: nat, rank: nat -> nat)
    requires Ordered(cpu, n, rank) && cpu.pc.Idle? && cpu.todo != [] && cpu.todo[0].Rel?
    ensures cpu.held != [] && Without(cpu.held, cpu.todo[0].l) == Shorter(cpu.held)
  {
    WithoutLast(cpu.held, rank);
  }

  /** A CPU's own step saves and restores only what its program saves. */
  lemma {:induction false} OwnPromised(w: World, c: nat, start: Cpu, rank: nat -> nat)
    requires Good(w) && AllOrdered(w, rank) && c < |w.cpus| && Promised(start, w.cpus[c])
    ensures c < |Step(w, c).cpus| && Promised(start, Step(w, c).cpus[c])
  {
    hide Proper, Exclusive, Without, Climbing, Uses, Saves, Disciplined;
    var cpu := w.cpus[c];
    assert FormedCpu(cpu, |w.locks|) && Ordered(cpu, |w.locks|, rank);
    match cpu.pc
    case Idle =>
      if cpu.todo != [] {
        SavesNext(cpu.held, cpu.todo, start.flag);
        if cpu.todo[0].Rel? { LastReleased(cpu, |w.locks|, rank); }
      }
    case Saved(l, s) =>
    case Spinning(l, s) =>
    case Won(l, s) =>
    case Dropping(l) => WithoutLast(cpu.held, rank);
    case Restoring(l) =>
  }

  /** The step of one CPU leaves the flags of a compatible other guarded. */
  lemma {:induction false} OtherGuarded(w: World, c: nat, d: nat, start: Cpu, other: Cpu)
    requires Good(w) && c < |w.cpus| && d < |w.cpus| && c != d
    requires Guarded(w.locks, w.cpus[c], start.flag) && Promised(start, w.cpus[c])
    requires Guarded(w.locks, w.cpus[d], other.flag) && Promised(other, w.cpus[d])
    requires forall l: nat, s, t :: Uses(start, l, s) && Uses(other, l, t) ==> s == t
    ensures Guarded(Step(w, c).locks, w.cpus[d], other.flag)
  {
    hide Proper, Future, Without, Uses, Saves, Remembers;
    var cpu, peer := w.cpus[c], w.cpus[d];
    assert FormedCpu(cpu, |w.locks|) && FormedCpu(peer, |w.locks|);
    if cpu.pc.Spinning? || cpu.pc.Won? || cpu.pc.Dropping? {
      var l := cpu.pc.l;
      assert Step(w, c).locks == w.locks[l := Step(w, c).locks[l]];
      if cpu.pc.Won? { assert Owns(cpu, l); assert l !in peer.held; }
      RememberSame(w.locks, peer.held, other.flag, l, Step(w, c).locks[l]);
    }
  }

  lemma {:induction false} StepGuarded(w: World, w': World, c: nat, rank: nat -> nat)
    requires Compatible(w) && Good(w') && AllOrdered(w', rank) && AllGuarded(w, w') && c < |w'.cpus|
    ensures AllGuarded(w, Step(w', c))
  {
    hide Step, Guarded, Promised, Uses, WellFormed, Exclusive, Ordered;
    OwnGuarded(w', c, w.cpus[c].flag, rank);
    OwnPromised(w', c, w.cpus[c], rank);
    OthersKept(w', c);
    var w2 := Step(w', c);
    forall d | 0 <= d < |w.cpus|
      ensures Guarded(w2.locks, w2.cpus[d], w.cpus[d].flag) && Promised(w.cpus[d], w2.cpus[d])
    {
      if d != c { OtherGuarded(w', c, d, w.cpus[c], w.cpus[d]); }
    }
  }

  lemma {:induction false} RunsGuarded(w: World, mid: World, s: seq<nat>, w': World, rank: nat -> nat)
    requires Compatible(w) && Good(mid) && AllOrdered(mid, rank) && AllGuarded(w, mid) && Runs(mid, s, w')
    ensures AllGuarded(w, w')
    decreases |s|
  {
    hide Step, Exclusive, WellFormed, Ordered, Compatible, AllGuarded;
    if s != [] {
      StepGuarded(w, mid, s[0], rank);
      StepOrdered(mid, s[0], rank);
      RunsGuarded(w, Step(mid, s[0]), s[1..], w', rank);
    }
  }

  lemma {:induction false} StartGuarded(w: World)
    requires Initial(w)
    ensures AllGuarded(w, w)
  {
    hide Saves;
  }

  lemma {:induction false} GuardedRestored(w: World, w': World)
    requires AllGuarded(w, w')
    ensures Restored(w, w')
  {
    hide Promised, Remembers;
    forall c | 0 <= c < |w.cpus| && w'.cpus[c].pc.Idle?
      ensures w'.cpus[c].flag == (w'.cpus[c].held == [] && w.cpus[c].flag)
    {
      assert Guarded(w'.locks, w'.cpus[c], w.cpus[c].flag);
    }
  }

  // ---------- incompatible programs ----------

  /** The world after a CPU has taken a free lock. */
  function Taken(w: World, c: nat, l: nat): World
    requires c < |w.cpus| && l < |w.locks| && w.cpus[c].todo != []
  {
    var cpu := w.cpus[c];
    World(w.cpus[c := Cpu(false, Idle, cpu.held + [l], cpu.todo[1..])], w.locks[l := Cell(true, cpu.flag)])
  }

  /** spinlock_acquire of a free lock, undisturbed. */
  lemma {:induction false} TakeRuns(w: World, c: nat, l: nat)
    requires Good(w) && c < |w.cpus| && l < |w.locks| && !w.locks[l].val
    requires w.cpus[c].pc.Idle? && w.cpus[c].todo != [] && w.cpus[c].todo[0] == Acq(l)
    ensures Good(Taken(w, c, l)) && Runs(w, [c, c, c, c], Taken(w, c, l))
  {
    hide WellFormed, Exclusive, Runs;
    var cpu := w.cpus[c];
    var w1 := Step(w, c);
    StepExclusive(w, c);
    var w2 := Step(w1, c);
    StepExclusive(w1, c);
    var w3 := Step(w2, c);
    StepExclusive(w2, c);
    StepExclusive(w3, c);
    assert w2.cpus[c] == Cpu(false, Spinning(l, cpu.flag), cpu.held, cpu.todo[1..]) && w2.locks == w.locks;
    assert w3.cpus[c] == Cpu(false, Won(l, cpu.flag), cpu.held, cpu.todo[1..]);
    assert Step(w3, c) == Taken(w, c, l);
    RunsFour(w, c);
  }

  lemma {:induction false} RunsFour(w: World, c: nat)
    requires c < |w.cpus| && WellFormed(w)
    requires c < |Step(w, c).cpus| && WellFormed(Step(w, c))
    requires c < |Step(Step(w, c), c).cpus| && WellFormed(Step(Step(w, c), c))
    requires c < |Step(Step(Step(w, c), c), c).cpus| && WellFormed(Step(Step(Step(w, c), c), c))
    ensures Runs(w, [c, c, c, c], Step(Step(Step(Step(w, c), c), c), c))
  {
    hide Step, WellFormed;
    var w1 := Step(w, c);
    var w2 := Step(w1, c);
    var w3 := Step(w2, c);
    var w4 := Step(w3, c);
    RunsCons(w3, c, [], w4);
    RunsCons(w2, c, [c], w4);
    RunsCons(w1, c, [c, c], w4);
    RunsCons(w, c, [c, c, c], w4);
  }

  /** lock->interrupts is read after the lock is given up.  When another CPU takes the lock in between,
      it is that CPU's flag which is restored. */
  lemma {:induction false} OtherFlagRestored(w: World, c: nat, d: nat, l: nat) returns (schedule: seq<nat>, w': World)
    requires Good(w) && c < |w.cpus| && d < |w.cpus| && c != d && l < |w.locks| && !w.locks[l].val
    requires w.cpus[c].pc == Restoring(l)
    requires w.cpus[d].pc.Idle? && w.cpus[d].todo != [] && w.cpus[d].todo[0] == Acq(l)
    ensures Runs(w, schedule, w') && |w'.cpus| == |w.cpus|
    ensures w'.cpus[c] == w.cpus[c].(pc := Idle, flag := w.cpus[c].flag || w.cpus[d].flag)
  {
    hide WellFormed, Exclusive, Runs;
    var t := Taken(w, d, l);
    TakeRuns(w, d, l);
    w' := Step(t, c);
    assert Runs(w', [], w') by { RunsNone(w'); }
    RunsCons(t, c, [], w');
    RunsJoin(w, [d, d, d, d], t, [c] + [], w');
    schedule := [d, d, d, d] + ([c] + []);
  }

  /** The world after a CPU has given up a lock but not yet read the flag back. */
  function Dropped(w: World, c: nat, l: nat): World
    requires c < |w.cpus| && l < |w.locks| && w.cpus[c].todo != []
  {
    var cpu := w.cpus[c];
    World(w.cpus[c := Cpu(cpu.flag, Restoring(l), Without(cpu.held, l), cpu.todo[1..])],
          w.locks[l := w.locks[l].(val := false)])
  }

  lemma {:induction false} DropRuns(w: World, c: nat, l: nat)
    requires Good(w) && c < |w.cpus| && l < |w.locks| && w.locks[l].val
    requires w.cpus[c].pc.Idle? && w.cpus[c].todo != [] && w.cpus[c].todo[0] == Rel(l)
    ensures Good(Dropped(w, c, l)) && Runs(w, [c, c], Dropped(w, c, l))
  {
    hide WellFormed, Exclusive, Runs, Without;
    var w1 := Step(w, c);
    StepExclusive(w, c);
    var w2 := Step(w1, c);
    StepExclusive(w1, c);
    assert w2 == Dropped(w, c, l);
    RunsNone(w2);
    RunsCons(w1, c, [], w2);
    RunsCons(w, c, [c] + [], w2);
    assert [c] + ([c] + []) == [c, c];
  }

  /** On two CPUs restoration fails: a CPU that had interrupts on ends its program with interrupts off. */
  lemma {:induction false} FlagLost(a: World) returns (schedule: seq<nat>, w: World)
    requires a == World([Cpu(true, Idle, [], [Acq(0), Rel(0)]), Cpu(false, Idle, [], [Acq(0), Rel(0)])],
                        [Cell(false, false)])
    ensures Initial(a) && Runs(a, schedule, w) && |w.cpus| == 2 && Finished(w.cpus[0]) && !w.cpus[0].flag
  {
    hide Runs;
    InitialGood(a);
    TakeRuns(a, 0, 0);
    var b := Taken(a, 0, 0);
    DropRuns(b, 0, 0);
    var c := Dropped(b, 0, 0);
    RunsJoin(a, [0, 0, 0, 0], b, [0, 0], c);
    schedule, w := OtherFlagRestored(c, 0, 1, 0);
    RunsJoin(a, [0, 0, 0, 0] + [0, 0], c, schedule, w);
    schedule := [0, 0, 0, 0] + [0, 0] + schedule;
  }

  /** The locks held after n operations. */
  function HeldAfter(held: seq<nat>, todo: seq<Op>, n: nat): seq<nat>
    requires n <= |todo|
    decreases n
  {
    if n == 0 then held else
      HeldAfter(if todo[0].Acq? then held + [todo[0].l] else Shorter(held), todo[1..], n - 1)
  }

  /** Where an acquire of l saves s. */
  lemma {:induction false} FindUse(held: seq<nat>, todo: seq<Op>, was: bool, l: nat, s: bool) returns (n: nat)
    requires Saves(held, todo, was, l, s)
    ensures n < |todo| && todo[n] == Acq(l) && s == (HeldAfter(held, todo, n) == [] && was)
    decreases |todo|
  {
    if todo[0] == Acq(l) && s == (held == [] && was) {
      n := 0;
    } else {
      n := FindUse(if todo[0].Acq? then held + [todo[0].l] else Shorter(held), todo[1..], was, l, s);
      n := n + 1;
    }
  }

  /** Where the outermost lock is released. */
  lemma {:induction false} FindEnd(held: seq<nat>, todo: seq<Op>, n: nat, rank: nat -> nat) returns (k: nat)
    requires Disciplined(held, todo, n, rank) && held != []
    ensures k < |todo| && todo[k] == Rel(held[0]) && HeldAfter(held, todo, k) == held[..1]
    decreases |todo|
  {
    if todo[0].Rel? && |held| == 1 {
      k := 0;
    } else {
      var next := if todo[0].Acq? then held + [todo[0].l] else Shorter(held);
      k := FindEnd(next, todo[1..], n, rank);
      assert next[..1] == held[..1];
      k := k + 1;
    }
  }

  /** Where a lock taken outermost, with interrupts on, is released. */
  lemma {:induction false} FindRelease(held: seq<nat>, todo: seq<Op>, was: bool, l: nat, n: nat, rank: nat -> nat)
    returns (k: nat)
    requires Disciplined(held, todo, n, rank) && Saves(held, todo, was, l, true)
    ensures was && k < |todo| && todo[k] == Rel(l) && HeldAfter(held, todo, k) == [l]
    decreases |todo|
  {
    if todo[0] == Acq(l) && held == [] && was {
      assert held + [l] == [l];
      k := FindEnd([l], todo[1..], n, rank);
    } else {
      k := FindRelease(if todo[0].Acq? then held + [todo[0].l] else Shorter(held), todo[1..], was, l, n, rank);
    }
    k := k + 1;
  }

  /** Nobody but c owns a lock. */
  ghost predicate Alone(w: World, c: nat) {
    forall d :: 0 <= d < |w.cpus| && d != c ==> w.cpus[d].held == [] && !w.cpus[d].pc.Won?
  }

  /** A lock the CPU may take next is free when it is alone. */
  lemma {:induction false} FreeForMe(w: World, c: nat, l: nat, rank: nat -> nat)
    requires Good(w) && AllOrdered(w, rank) && Alone(w, c) && c < |w.cpus|
    requires w.cpus[c].pc.Idle? && w.cpus[c].todo != [] && w.cpus[c].todo[0] == Acq(l)
    ensures l < |w.locks| && !w.locks[l].val
  {
    hide Proper;
    var cpu := w.cpus[c];
    assert Ordered(cpu, |w.locks|, rank) && Below(cpu.held, l, rank);
    assert l !in cpu.held;
  }

  lemma {:induction false} MineToRelease(w: World, c: nat, l: nat, rank: nat -> nat)
    requires Good(w) && AllOrdered(w, rank) && c < |w.cpus|
    requires w.cpus[c].pc.Idle? && w.cpus[c].todo != [] && w.cpus[c].todo[0] == Rel(l)
    ensures l < |w.locks| && w.locks[l].val && Without(w.cpus[c].held, l) == Shorter(w.cpus[c].held)
  {
    hide Without;
    var cpu := w.cpus[c];
    assert Ordered(cpu, |w.locks|, rank) && FormedCpu(cpu, |w.locks|);
    LastReleased(cpu, |w.locks|, rank);
    assert Owns(cpu, l);
    assert Owned(w, l);
  }

  /** One lock operation of a CPU that is alone. */
  lemma {:induction false} OneOp(w: World, c: nat, rank: nat -> nat) returns (s: seq<nat>, w': World)
    requires Good(w) && AllOrdered(w, rank) && Alone(w, c) && c < |w.cpus|
    requires w.cpus[c].pc.Idle? && w.cpus[c].todo != []
    ensures Runs(w, s, w') && |w'.cpus| == |w.cpus| && w'.cpus[c].pc.Idle?
    ensures var op := w.cpus[c].todo[0];
            && w'.cpus[c].held == (if op.Acq? then w.cpus[c].held + [op.l] else Shorter(w.cpus[c].held))
            && w'.cpus[c].todo == w.cpus[c].todo[1..]
    ensures forall d :: 0 <= d < |w.cpus| && d != c ==> w'.cpus[d] == w.cpus[d]
  {
    hide WellFormed, Exclusive, Runs, Ordered, Without, Shorter;
    var op := w.cpus[c].todo[0];
    if op.Acq? {
      FreeForMe(w, c, op.l, rank);
      TakeRuns(w, c, op.l);
      s, w' := [c, c, c, c], Taken(w, c, op.l);
    } else {
      MineToRelease(w, c, op.l, rank);
      DropRuns(w, c, op.l);
      var mid := Dropped(w, c, op.l);
      w' := Step(mid, c);
      RunsNone(w');
      RunsCons(mid, c, [], w');
      RunsJoin(w, [c, c], mid, [c] + [], w');
      s := [c, c] + ([c] + []);
    }
  }

  /** The first n operations of a CPU that is alone. */
  lemma {:induction false} RunAlone(w: World, c: nat, n: nat, rank: nat -> nat) returns (s: seq<nat>, w': World)
    requires Good(w) && AllOrdered(w, rank) && Alone(w, c) && c < |w.cpus|
    requires w.cpus[c].pc.Idle? && n <= |w.cpus[c].todo|
    ensures Runs(w, s, w') && Good(w') && AllOrdered(w', rank) && Alone(w', c)
    ensures |w'.cpus| == |w.cpus| && |w'.locks| == |w.locks|
    ensures w'.cpus[c].pc.Idle? && w'.cpus[c].todo == w.cpus[c].todo[n..]
    ensures w'.cpus[c].held == HeldAfter(w.cpus[c].held, w.cpus[c].todo, n)
    ensures forall d :: 0 <= d < |w.cpus| && d != c ==> w'.cpus[d] == w.cpus[d]
    decreases n
  {
    hide WellFormed, Exclusive, Runs, Ordered, Shorter;
    if n == 0 {
      s, w' := [], w;
      RunsNone(w);
    } else {
      var s1, mid := OneOp(w, c, rank);
      RunsOrdered(w, s1, mid, rank);
      var s2;
      s2, w' := RunAlone(mid, c, n - 1, rank);
      RunsJoin(w, s1, mid, s2, w');
      s := s1 + s2;
    }
  }

  /** c has given up lock l, taken outermost, and is about to read the flag back; nobody else has moved. */
  ghost predicate Poised(w: World, a: World, c: nat, l: nat) {
    && |a.cpus| == |w.cpus| && c < |w.cpus|
    && a.cpus[c].pc == Restoring(l) && a.cpus[c].held == [] && !a.cpus[c].flag
    && forall d :: 0 <= d < |w.cpus| && d != c ==> a.cpus[d] == w.cpus[d]
  }

  /** Alone, c gets that far, or its flags are wrong before. */
  lemma {:induction false} RunToRelease(w: World, c: nat, l: nat, rank: nat -> nat) returns (s: seq<nat>, w': World)
    requires Initial(w) && AllOrdered(w, rank) && c < |w.cpus| && Uses(w.cpus[c], l, true)
    ensures Runs(w, s, w') && Good(w') && AllOrdered(w', rank)
    ensures !Restored(w, w') || Poised(w, w', c, l)
  {
    hide WellFormed, Exclusive, Runs, Ordered, Shorter, HeldAfter, Saves;
    InitialGood(w);
    InitialFuture(w, c, rank);
    var k := FindRelease([], w.cpus[c].todo, w.cpus[c].flag, l, |w.locks|, rank);
    s, w' := RunAlone(w, c, k, rank);
    if Restored(w, w') {
      MineToRelease(w', c, l, rank);
      DropRuns(w', c, l);
      var a := Dropped(w', c, l);
      RunsOrdered(w', [c, c], a, rank);
      RunsJoin(w, s, w', [c, c], a);
      assert Without([l], l) == [];
      s, w' := s + [c, c], a;
    }
  }

  lemma {:induction false} PoisedAlone(w: World, a: World, c: nat, d: nat, l: nat)
    requires Initial(w) && Poised(w, a, c, l) && d < |w.cpus| && d != c
    ensures Alone(a, d) && a.cpus[d] == w.cpus[d] && w.cpus[d].pc.Idle? && w.cpus[d].held == []
  {
  }

  /** From there d runs on, takes the lock and c restores what d saved. */
  lemma {:induction false} RunOther(w: World, a: World, c: nat, d: nat, l: nat, rank: nat -> nat)
    returns (s: seq<nat>, w': World)
    requires Initial(w) && Good(a) && AllOrdered(a, rank) && Poised(w, a, c, l)
    requires d < |w.cpus| && c != d && w.cpus[c].flag && Uses(w.cpus[d], l, false)
    ensures Runs(a, s, w') && !Restored(w, w')
  {
    hide Initial, WellFormed, Exclusive, Runs, Ordered, Shorter, HeldAfter, Saves, Alone;
    PoisedAlone(w, a, c, d, l);
    var n := FindUse([], w.cpus[d].todo, w.cpus[d].flag, l, false);
    s, w' := RunAlone(a, d, n, rank);
    if Restored(w, w') {
      FreeForMe(w', d, l, rank);
      var s2, e := OtherFlagRestored(w', c, d, l);
      RunsJoin(a, s, w', s2, e);
      s, w' := s + s2, e;
    }
  }

  lemma {:induction false} OnOutside(cpu: Cpu, l: nat)
    requires Uses(cpu, l, true)
    ensures cpu.flag
  {
    var n := FindUse([], cpu.todo, cpu.flag, l, true);
  }

  /** Two CPUs that save different values in one lock: c can be made to restore what d saved. */
  lemma {:induction false} BadRun(w: World, c: nat, d: nat, l: nat, rank: nat -> nat) returns (s: seq<nat>, w': World)
    requires Initial(w) && AllOrdered(w, rank) && c < |w.cpus| && d < |w.cpus| && c != d
    requires Uses(w.cpus[c], l, true) && Uses(w.cpus[d], l, false)
    ensures Runs(w, s, w') && !Restored(w, w')
  {
    hide Initial, WellFormed, Exclusive, Runs, AllOrdered, Uses, Restored, Poised;
    OnOutside(w.cpus[c], l);
    s, w' := RunToRelease(w, c, l, rank);
    if Restored(w, w') {
      var s2, e := RunOther(w, w', c, d, l, rank);
      RunsJoin(w, s, w', s2, e);
      s, w' := s + s2, e;
    }
  }

  lemma {:induction false} InitialFuture(w: World, c: nat, rank: nat -> nat)
    requires Initial(w) && AllOrdered(w, rank) && c < |w.cpus|
    ensures Disciplined([], w.cpus[c].todo, |w.locks|, rank)
  {
    assert Ordered(w.cpus[c], |w.locks|, rank);
  }

  // ---------- the exact condition ----------

  /** For any number of CPUs and any programs in lock order: every run restores every flag if and only if
      no lock is used by two CPUs to save different values. */
  lemma {:induction false} RestoredIff(w: World, rank: nat -> nat)
    requires Initial(w) && AllOrdered(w, rank)
    ensures AlwaysRestored(w) <==> Compatible(w)
  {
    hide Initial, Runs, Restored, Uses, AllOrdered, AllGuarded, WellFormed, Exclusive;
    if Compatible(w) {
      InitialGood(w);
      StartGuarded(w);
      forall s, w' | Runs(w, s, w')
        ensures Restored(w, w')
      {
        RunsGuarded(w, w, s, w', rank);
        GuardedRestored(w, w');
      }
    } else {
      var c, d, l: nat, s, t :| 0 <= c < |w.cpus| && 0 <= d < |w.cpus| && c != d
        && Uses(w.cpus[c], l, s) && Uses(w.cpus[d], l, t) && s != t;
      if s {
        var run, w' := BadRun(w, c, d, l, rank);
      } else {
        var run, w' := BadRun(w, d, c, l, rank);
      }
    }
  }

  /** One CPU is always compatible. */
  lemma {:induction false} OneCpuRestored(w: World, rank: nat -> nat)
    requires Initial(w) && AllOrdered(w, rank) && |w.cpus| == 1
    ensures AlwaysRestored(w)
  {
    hide Initial, AllOrdered, AlwaysRestored, Uses;
    RestoredIff(w, rank);
  }
}
