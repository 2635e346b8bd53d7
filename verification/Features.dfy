/** Start-up of the kernel's features in dependency order (kmain.c).

    Features lie next to each other between __start_features and __stop_features, so a feature is
    named here by its position.  A panic is the result `false`: the kernel stops. */
module Features {
  import opened Options
  import Arith

  datatype State = Uninit | Resolved | Init

  // ---------- names ----------

  /** The first position of a name. */
  function Lookup(names: seq<string>, name: string): (r: Option<nat>)
    ensures r.None? <==> name !in names
    ensures r.Some? ==> r.value < |names| && names[r.value] == name && name !in names[..r.value]
  {
    if names == [] then None
    else if names[0] == name then Some(0)
    else
      var r := Lookup(names[1..], name);
      assert names == [names[0]] + names[1..];
      if r.None? then None else
        assert names[..r.value + 1] == [names[0]] + names[1..][..r.value];
        Some(r.value + 1)
  }

  lemma {:induction false} LookupFirst(names: seq<string>, name: string, i: nat)
    requires i < |names| && names[i] == name && name !in names[..i]
    ensures Lookup(names, name) == Some(i)
  {
    if i > 0 {
      assert name !in names[1..][..i - 1];
      LookupFirst(names[1..], name, i - 1);
    }
  }

  function LookupAll(names: seq<string>, list: seq<string>): (r: seq<Option<nat>>)
    ensures |r| == |list|
    ensures forall i :: 0 <= i < |r| ==> r[i] == Lookup(names, list[i])
  {
    if list == [] then [] else LookupAll(names, list[..|list| - 1]) + [Lookup(names, list[|list| - 1])]
  }

  // ---------- the dependency graph ----------

  /** Resolved features: their hard and soft prerequisites, whether they have an init function, and
      what it returns. */
  datatype Graph = Graph(
    required: seq<seq<Option<nat>>>,
    after: seq<seq<Option<nat>>>,
    hasInit: seq<bool>,
    starts: seq<bool>)
  {
    predicate Shaped() { |after| == |required| && |hasInit| == |required| && |starts| == |required| }

    /** m depends, softly or not, on d. */
    ghost predicate Edge(m: nat, d: nat)
      requires Shaped()
    {
      m < |required| && (Some(d) in required[m] || Some(d) in after[m])
    }

    ghost predicate Path(p: seq<nat>)
      requires Shaped()
    {
      forall i, j :: 0 <= i && j == i + 1 < |p| ==> Edge(p[i], p[j])
    }

    /** d leads to m along dependencies. */
    ghost predicate Reaches(d: nat, m: nat)
      requires Shaped()
    {
      exists p :: p != [] && p[0] == d && p[|p| - 1] == m && Path(p)
    }

    /** Nothing about m makes the kernel panic. */
    ghost predicate Sound(m: nat)
      requires Shaped()
    {
      m < |required| && None !in required[m] && (hasInit[m] ==> starts[m])
    }

    /** Every feature comes after each dependency that does not lead back to it. */
    ghost predicate Ordered(log: seq<nat>)
      requires Shaped()
    {
      forall i, d :: 0 <= i < |log| && Edge(log[i], d) ==> d in log[..i] || Reaches(d, log[i])
    }

    /** Every init function runs after that of each dependency that does not lead back to its feature. */
    ghost predicate CallsOrdered(calls: seq<nat>)
      requires Shaped()
    {
      forall i, d: nat :: 0 <= i < |calls| && Edge(calls[i], d) && d < |hasInit| && hasInit[d] ==>
                       d in calls[..i] || Reaches(d, calls[i])
    }
  }

  ghost predicate NoRepeats(s: seq<nat>) { forall i, j :: 0 <= i < j < |s| ==> s[i] != s[j] }

  /** The started features that have an init function, in order. */
  ghost function WithInit(hasInit: seq<bool>, log: seq<nat>): seq<nat> {
    if log == [] then [] else
      var rest, m := WithInit(hasInit, log[..|log| - 1]), log[|log| - 1];
      if m < |hasInit| && hasInit[m] then rest + [m] else rest
  }

  /** What holds while the features of `stack` are in progress, each waiting for the next: a feature
      is marked initialised exactly when it is in progress or has been started. */
  ghost predicate Consistent(g: Graph, state: seq<State>, log: seq<nat>, calls: seq<nat>, stack: seq<nat>) {
    && g.Shaped() && |state| == |g.required|
    && (forall m: nat :: m < |state| ==> (state[m] == Init <==> m in log || m in stack))
    && NoRepeats(log + stack)
    && (forall i :: 0 <= i < |stack| ==> stack[i] < |state|)
    && (forall i :: 0 <= i < |log| ==> g.Sound(log[i]))
    && g.Path(stack) && g.Ordered(log)
    && calls == WithInit(g.hasInit, log)
  }

  /** A feature in progress leads to the one on top of the stack. */
  lemma {:induction false} StackReaches(g: Graph, stack: seq<nat>, d: nat)
    requires g.Shaped() && g.Path(stack) && d in stack
    ensures g.Reaches(d, stack[|stack| - 1])
  {
    var i :| 0 <= i < |stack| && stack[i] == d;
    var p := stack[i..];
    assert p[0] == d && p[|p| - 1] == stack[|stack| - 1] && g.Path(p);
  }

  /** Marking a feature before its dependencies puts it on the stack. */
  lemma {:induction false} Push(g: Graph, state: seq<State>, log: seq<nat>, calls: seq<nat>, stack: seq<nat>, m: nat)
    requires Consistent(g, state, log, calls, stack) && m < |state| && state[m] != Init
    requires stack != [] ==> g.Edge(stack[|stack| - 1], m)
    ensures Consistent(g, state[m := Init], log, calls, stack + [m])
  {
    assert log + (stack + [m]) == (log + stack) + [m];
    assert m !in log + stack;
  }

  /** Starting the feature on top of the stack, once each dependency is started or in progress. */
  lemma {:induction false} Pop(g: Graph, state: seq<State>, log: seq<nat>, calls: seq<nat>, stack: seq<nat>, m: nat)
    requires Consistent(g, state, log, calls, stack + [m]) && g.Sound(m)
    requires forall d :: g.Edge(m, d) ==> d in log || d in stack + [m]
    ensures Consistent(g, state, log + [m], if g.hasInit[m] then calls + [m] else calls, stack)
  {
    var top, log' := stack + [m], log + [m];
    assert log + top == log + stack + [m];
    assert stack == top[..|stack|];
    NoRepeatsMove(log, stack, m);
    assert log'[..|log|] == log;
    forall i, d | 0 <= i < |log'| && g.Edge(log'[i], d)
      ensures d in log'[..i] || g.Reaches(d, log'[i])
    {
      if i < |log| {
        assert log'[..i] == log[..i] && log'[i] == log[i];
      } else if d !in log {
        StackReaches(g, top, d);
      }
    }
  }

  lemma {:induction false} NoRepeatsMove(log: seq<nat>, stack: seq<nat>, m: nat)
    requires NoRepeats(log + (stack + [m]))
    ensures NoRepeats((log + [m]) + stack)
  {
    var a, b := log + (stack + [m]), (log + [m]) + stack;
    forall i, j | 0 <= i < j < |b|
      ensures b[i] != b[j]
    {
      var f := (k: int) => if k < |log| then k else if k == |log| then |a| - 1 else k - 1;
      assert b[i] == a[f(i)] && b[j] == a[f(j)];
    }
  }

  // ---------- the order ----------

  /** The links that lead somewhere. */
  function Found(links: seq<Option<nat>>): seq<nat> {
    if links == [] then [] else
      Found(links[..|links| - 1]) + if links[|links| - 1].Some? then [links[|links| - 1].value] else []
  }

  /** What a feature waits for, in order: its hard prerequisites, then the soft ones. */
  function Prerequisites(g: Graph, m: nat): seq<nat>
    requires g.Shaped() && m < |g.required|
  {
    Found(g.required[m]) + Found(g.after[m])
  }

  datatype Visit = Visit(log: seq<nat>, seen: set<nat>)

  ghost function Everything(g: Graph): set<nat> { Arith.Range(0, |g.required|) }

  /** Depth first through the listed features, each behind what it waits for, passing over those seen. */
  ghost function PostOrder(g: Graph, list: seq<nat>, seen: set<nat>): (v: Visit)
    requires g.Shaped()
    ensures seen <= v.seen
    decreases Everything(g) - seen, |list|
  {
    if list == [] then Visit([], seen) else
    if list[0] >= |g.required| || list[0] in seen then PostOrder(g, list[1..], seen) else
      assert list[0] in Everything(g) - seen;
      var inner := PostOrder(g, Prerequisites(g, list[0]), seen + {list[0]});
      var rest := PostOrder(g, list[1..], inner.seen);
      Visit(inner.log + [list[0]] + rest.log, rest.seen)
  }

  /** One list after the other. */
  lemma {:induction false} PostOrderJoin(g: Graph, a: seq<nat>, b: seq<nat>, seen: set<nat>)
    requires g.Shaped()
    ensures var u := PostOrder(g, a, seen);
            var v := PostOrder(g, b, u.seen);
            PostOrder(g, a + b, seen) == Visit(u.log + v.log, v.seen)
    decreases Everything(g) - seen, |a|
  {
    hide Prerequisites;
    if a == [] {
      assert a + b == b;
    } else {
      assert (a + b)[0] == a[0] && (a + b)[1..] == a[1..] + b;
      if a[0] >= |g.required| || a[0] in seen {
        PostOrderJoin(g, a[1..], b, seen);
      } else {
        assert a[0] in Everything(g) - seen;
        PostOrderJoin(g, a[1..], b, PostOrder(g, Prerequisites(g, a[0]), seen + {a[0]}).seen);
      }
    }
  }

  lemma {:induction false} PostOrderOne(g: Graph, m: nat, seen: set<nat>)
    requires g.Shaped() && m < |g.required|
    ensures m in seen ==> PostOrder(g, [m], seen) == Visit([], seen)
    ensures m !in seen ==>
              var v := PostOrder(g, Prerequisites(g, m), seen + {m});
              PostOrder(g, [m], seen) == Visit(v.log + [m], v.seen)
  {
    hide Prerequisites;
    assert [m][1..] == [];
    if m !in seen {
      var inner := PostOrder(g, Prerequisites(g, m), seen + {m});
      assert PostOrder(g, [], inner.seen) == Visit([], inner.seen);
    }
  }

  /** One more link of a list. */
  lemma {:induction false} PostOrderMore(g: Graph, links: seq<Option<nat>>, i: nat, seen: set<nat>)
    requires g.Shaped() && i < |links|
    ensures var u := PostOrder(g, Found(links[..i]), seen);
            PostOrder(g, Found(links[..i + 1]), seen) ==
              if links[i].None? then u else
                var v := PostOrder(g, [links[i].value], u.seen);
                Visit(u.log + v.log, v.seen)
  {
    hide PostOrder;
    assert links[..i + 1][..i] == links[..i];
    if links[i].Some? {
      PostOrderJoin(g, Found(links[..i]), [links[i].value], seen);
    } else {
      assert Found(links[..i + 1]) == Found(links[..i]);
    }
  }

  lemma {:induction false} NoLinks(g: Graph, links: seq<Option<nat>>, seen: set<nat>)
    requires g.Shaped()
    ensures PostOrder(g, Found(links[..0]), seen) == Visit([], seen)
  {
  }

  /** The positions up to n, in order. */
  function Section(n: nat): seq<nat> { if n == 0 then [] else Section(n - 1) + [n - 1] }

  // ---------- the code ----------

  class Startup {
    const names: seq<string>
    const required: seq<seq<string>>
    const loadAfter: seq<seq<string>>
    const hasInit: seq<bool>
    const starts: seq<bool>

    var state: seq<State>
    /** The `feature` members of the prerequisites. */
    var requiredLinks: seq<seq<Option<nat>>>
    var afterLinks: seq<seq<Option<nat>>>
    /** Features in the order they were started, and init functions in the order they were called. */
    var started: seq<nat>
    var calls: seq<nat>

    constructor (names: seq<string>, required: seq<seq<string>>, loadAfter: seq<seq<string>>, hasInit: seq<bool>,
                 starts: seq<bool>)
      requires |required| == |names| && |loadAfter| == |names| && |hasInit| == |names| && |starts| == |names|
      ensures Shaped() && this.names == names && this.required == required && this.loadAfter == loadAfter
      ensures this.hasInit == hasInit && this.starts == starts && started == [] && calls == []
    {
      this.names, this.required, this.loadAfter := names, required, loadAfter;
      this.hasInit, this.starts := hasInit, starts;
      this.state := seq(|names|, _ => Uninit);
      this.requiredLinks, this.afterLinks := seq(|names|, _ => []), seq(|names|, _ => []);
      this.started, this.calls := [], [];
    }

    predicate Shaped()
      reads this
    {
      && |required| == |names| && |loadAfter| == |names| && |hasInit| == |names| && |starts| == |names|
      && |state| == |names| && |requiredLinks| == |names| && |afterLinks| == |names|
    }

    /** The graph the names describe. */
    ghost function Spec(): (g: Graph)
      requires |required| == |names| && |loadAfter| == |names| && |hasInit| == |names| && |starts| == |names|
      ensures g.Shaped() && |g.required| == |names| && g.hasInit == hasInit && g.starts == starts
    {
      Graph(seq(|names|, (m: nat) requires m < |required| => LookupAll(names, required[m])),
            seq(|names|, (m: nat) requires m < |loadAfter| => LookupAll(names, loadAfter[m])), hasInit, starts)
    }

    /** find_feature. */
    method FindFeature(name: string) returns (r: Option<nat>)
      ensures r == Lookup(names, name)
    {
      for i := 0 to |names|
        invariant name !in names[..i]
      {
        if names[i] == name {
          LookupFirst(names, name, i);
          return Some(i);
        }
      }
      assert names[..|names|] == names;
      r := None;
    }

    method ResolveList(list: seq<string>) returns (links: seq<Option<nat>>)
      ensures links == LookupAll(names, list)
    {
      links := [];
      for i := 0 to |list|
        invariant |links| == i && forall j :: 0 <= j < i ==> links[j] == Lookup(names, list[j])
      {
        var f := FindFeature(list[i]);
        links := links + [f];
      }
    }

    /** resolve_feature. */
    method ResolveFeature(m: nat)
      requires Shaped() && m < |names|
      modifies this`state, this`requiredLinks, this`afterLinks
      ensures Shaped()
      ensures old(state[m]) == Uninit ==>
                && state == old(state)[m := Resolved]
                && requiredLinks == old(requiredLinks)[m := LookupAll(names, required[m])]
                && afterLinks == old(afterLinks)[m := LookupAll(names, loadAfter[m])]
      ensures old(state[m]) != Uninit ==>
                state == old(state) && requiredLinks == old(requiredLinks) && afterLinks == old(afterLinks)
    {
      if state[m] != Uninit {
        return;
      }
      var r := ResolveList(required[m]);
      requiredLinks := requiredLinks[m := r];
      var a := ResolveList(loadAfter[m]);
      afterLinks := afterLinks[m := a];
      state := state[m := Resolved];
    }

    /** The links are resolved, and the run so far is consistent with what is in progress. */
    ghost predicate Running(stack: seq<nat>)
      reads this
    {
      && Shaped() && requiredLinks == Spec().required && afterLinks == Spec().after
      && Consistent(Spec(), state, started, calls, stack)
    }

    ghost predicate Touched(m: nat, stack: seq<nat>)
      reads this
    {
      m in started || m in stack
    }

    ghost function Marked(): set<nat>
      reads this
    {
      set m: nat | m < |state| && state[m] == Init
    }

    /** What a visit adds to what was started and marked before. */
    ghost predicate Visited(before: seq<nat>, v: Visit)
      reads this
    {
      started == before + v.log && Marked() == v.seen
    }

    ghost function Pending(): set<nat>
      reads this
    {
      set m: nat | m < |state| && state[m] != Init
    }

    /** init_feature.  On success the feature is started or was already in progress, everything in
        progress before is still in progress, and nothing else is. */
    method InitFeature(m: nat, ghost stack: seq<nat>) returns (ok: bool)
      requires Running(stack) && m < |names|
      requires stack != [] ==> Spec().Edge(stack[|stack| - 1], m)
      modifies this`state, this`started, this`calls
      ensures ok ==> Running(stack) && Touched(m, stack) && old(started) <= started
      ensures ok ==> Visited(old(started), PostOrder(Spec(), [m], old(Marked())))
      ensures !ok ==> exists x: nat :: x < |names| && !Spec().Sound(x)
      ensures |state| == |old(state)| && Pending() <= old(Pending())
      decreases Pending(), 0
    {
      hide Consistent, Spec, PostOrder, Prerequisites, Graph.Edge;
      ghost var g := Spec();
      Status(stack, m);
      PostOrderOne(g, m, Marked());
      if state[m] == Init {
        return true;
      }
      Push(g, state, started, calls, stack, m);
      state := state[m := Init];
      assert Marked() == old(Marked()) + {m};
      assert Pending() < old(Pending()) by { assert m in old(Pending()) && m !in Pending(); }
      ok := InitPrerequisites(m, stack);
      if !ok {
        return;
      }
      ghost var was, done := started, calls;
      started := started + [m];
      if hasInit[m] {
        calls := calls + [m];
        if !starts[m] {
          assert !g.Sound(m);
          return false;
        }
      }
      Pop(g, state, was, done, stack, m);
    }

    /** The two loops of init_feature. */
    method InitPrerequisites(m: nat, ghost stack: seq<nat>) returns (ok: bool)
      requires Running(stack + [m]) && m < |names|
      modifies this`state, this`started, this`calls
      ensures ok ==> Running(stack + [m]) && old(started) <= started && None !in requiredLinks[m]
      ensures ok ==> forall d :: Spec().Edge(m, d) ==> d in started || d in stack + [m]
      ensures ok ==> Visited(old(started), PostOrder(Spec(), Prerequisites(Spec(), m), old(Marked())))
      ensures !ok ==> exists x: nat :: x < |names| && !Spec().Sound(x)
      ensures |state| == |old(state)| && Pending() <= old(Pending())
      decreases Pending(), 2
    {
      hide Consistent, Spec, PostOrder, Found;
      ghost var g, top := Spec(), stack + [m];
      PostOrderJoin(g, Found(g.required[m]), Found(g.after[m]), Marked());
      ok := InitList(requiredLinks[m], true, m, stack);
      if !ok {
        return;
      }
      ghost var before := started;
      ok := InitList(afterLinks[m], false, m, stack);
      if !ok {
        return;
      }
      forall d | g.Edge(m, d)
        ensures d in started || d in top
      {
        AllTouched(m, d, before, top);
      }
    }

    /** Each dependency of m has been dealt with by one of the two lists. */
    lemma {:induction false} AllTouched(m: nat, d: nat, before: seq<nat>, top: seq<nat>)
      requires Running(top) && m < |names| && before <= started && Spec().Edge(m, d)
      requires forall i :: 0 <= i < |requiredLinks[m]| && requiredLinks[m][i].Some? ==>
                 requiredLinks[m][i].value in before || requiredLinks[m][i].value in top
      requires forall i :: 0 <= i < |afterLinks[m]| && afterLinks[m][i].Some? ==> Touched(afterLinks[m][i].value, top)
      ensures d in started || d in top
    {
      hide Consistent;
      if Some(d) in requiredLinks[m] {
        var i :| 0 <= i < |requiredLinks[m]| && requiredLinks[m][i] == Some(d);
      } else {
        var i :| 0 <= i < |afterLinks[m]| && afterLinks[m][i] == Some(d);
      }
    }

    /** What a feature's state says. */
    lemma {:induction false} Status(stack: seq<nat>, m: nat)
      requires Running(stack) && m < |names|
      ensures state[m] == Init <==> Touched(m, stack)
    {
    }

    lemma {:induction false} MissingPrerequisite(m: nat, i: nat, stack: seq<nat>)
      requires Running(stack) && m < |names| && i < |requiredLinks[m]| && requiredLinks[m][i].None?
      ensures !Spec().Sound(m)
    {
      hide Consistent;
    }

    lemma {:induction false} LinkIsEdge(m: nat, hard: bool, i: nat, stack: seq<nat>)
      requires Running(stack) && m < |names|
      requires var links := if hard then requiredLinks[m] else afterLinks[m]; i < |links| && links[i].Some?
      ensures var links := if hard then requiredLinks[m] else afterLinks[m];
              links[i].value < |names| && Spec().Edge(m, links[i].value)
    {
      hide Consistent;
    }

    /** The loop of init_feature over one list of prerequisites. */
    method InitList(links: seq<Option<nat>>, hard: bool, m: nat, ghost stack: seq<nat>) returns (ok: bool)
      requires Running(stack + [m]) && m < |names| && links == (if hard then requiredLinks[m] else afterLinks[m])
      modifies this`state, this`started, this`calls
      ensures ok ==> Running(stack + [m]) && old(started) <= started
      ensures ok ==> forall i :: 0 <= i < |links| && links[i].Some? ==> Touched(links[i].value, stack + [m])
      ensures ok && hard ==> None !in links
      ensures ok ==> Visited(old(started), PostOrder(Spec(), Found(links), old(Marked())))
      ensures !ok ==> exists x: nat :: x < |names| && !Spec().Sound(x)
      ensures |state| == |old(state)| && Pending() <= old(Pending())
      decreases Pending(), 1
    {
      hide Consistent, Spec, Graph.Edge, Graph.Sound, Found, PostOrder;
      ghost var top, g, seen := stack + [m], Spec(), Marked();
      NoLinks(g, links, seen);
      for i := 0 to |links|
        invariant Running(top) && old(started) <= started
        invariant forall j :: 0 <= j < i && links[j].Some? ==> Touched(links[j].value, top)
        invariant hard ==> None !in links[..i]
        invariant Visited(old(started), PostOrder(g, Found(links[..i]), seen))
        invariant |state| == |old(state)| && Pending() <= old(Pending())
      {
        PostOrderMore(g, links, i, seen);
        match links[i]
        case None =>
          if hard {
            MissingPrerequisite(m, i, top);
            return false;
          }
        case Some(d) =>
          LinkIsEdge(m, hard, i, top);
          ok := InitFeature(d, top);
          if !ok {
            return;
          }
      }
      assert links[..|links|] == links;
      ok := true;
    }

    /** The first two loops of init_features: all features uninitialised, then all resolved. */
    method ResolveAll()
      requires Shaped() && started == [] && calls == []
      modifies this`state, this`requiredLinks, this`afterLinks
      ensures Running([])
    {
      for m := 0 to |names|
        invariant Shaped() && forall i :: 0 <= i < m ==> state[i] == Uninit
      {
        state := state[m := Uninit];
      }
      for m := 0 to |names|
        invariant Shaped()
        invariant forall i :: 0 <= i < |names| ==> state[i] == if i < m then Resolved else Uninit
        invariant forall i :: 0 <= i < m ==>
                    requiredLinks[i] == LookupAll(names, required[i]) && afterLinks[i] == LookupAll(names, loadAfter[i])
      {
        ResolveFeature(m);
      }
      assert requiredLinks == Spec().required && afterLinks == Spec().after;
    }

    lemma {:induction false} NoneMarked()
      requires Running([]) && started == []
      ensures Visited([], PostOrder(Spec(), Section(0), {}))
    {
      assert Marked() == {};
    }

    /** init_features.  It completes exactly when every hard prerequisite exists and every init function
        succeeds, whatever cycles there are; then every feature is started once, each init function is
        called once, and every dependency that does not lead back to a feature is started, and its init
        function called, before it.  Of the orders that allow this it takes one: by position in the section, depth
        first, hard prerequisites before soft ones. */
    method InitFeatures() returns (ok: bool)
      requires Shaped() && started == [] && calls == []
      modifies this
      ensures ok <==> forall m: nat :: m < |names| ==> Spec().Sound(m)
      ensures ok ==> NoRepeats(started) && forall m: nat :: m in started <==> m < |names|
      ensures ok ==> Spec().Ordered(started) && Spec().CallsOrdered(calls)
      ensures ok ==> started == PostOrder(Spec(), Section(|names|), {}).log
      ensures ok ==> calls == WithInit(hasInit, started)
      ensures ok ==> NoRepeats(calls) && forall m: nat :: m in calls <==> m < |names| && hasInit[m]
    {
      hide Spec, WithInit, PostOrder;
      ResolveAll();
      NoneMarked();
      for m := 0 to |names|
        invariant Running([]) && forall i: nat :: i < m ==> i in started
        invariant Visited([], PostOrder(Spec(), Section(m), {}))
      {
        PostOrderJoin(Spec(), Section(m), [m], {});
        ok := InitFeature(m, []);
        if !ok {
          return;
        }
      }
      ok := true;
      assert started + [] == started;
      forall m: nat
        ensures m in started <==> m < |names|
      {
        if m in started {
          var i :| 0 <= i < |started| && started[i] == m;
          assert Spec().Sound(started[i]);
        }
      }
      forall m: nat | m < |names|
        ensures Spec().Sound(m)
      {
        assert m in started;
        var i :| 0 <= i < |started| && started[i] == m;
      }
      CallsOnce(hasInit, started);
      CallsFollow(Spec(), started);
    }
  }

  /** The order of starting is the order of the calls. */
  lemma {:induction false} CallsFollow(g: Graph, log: seq<nat>)
    requires g.Shaped() && g.Ordered(log) && NoRepeats(log)
    ensures g.CallsOrdered(WithInit(g.hasInit, log))
  {
    hide Graph.Reaches, Graph.Edge;
    if log != [] {
      var most, m := log[..|log| - 1], log[|log| - 1];
      assert forall i :: 0 <= i < |most| ==> most[i] == log[i] && most[..i] == log[..i];
      CallsFollow(g, most);
      CallsOnce(g.hasInit, most);
      var rest, calls := WithInit(g.hasInit, most), WithInit(g.hasInit, log);
      forall i, d: nat | 0 <= i < |calls| && g.Edge(calls[i], d) && d < |g.hasInit| && g.hasInit[d]
        ensures d in calls[..i] || g.Reaches(d, calls[i])
      {
        if i < |rest| {
          assert calls[i] == rest[i] && calls[..i] == rest[..i];
        } else {
          assert calls[i] == log[|log| - 1] && calls[..i] == rest;
        }
      }
    }
  }

  /** Started once, called once. */
  lemma {:induction false} CallsOnce(hasInit: seq<bool>, log: seq<nat>)
    requires NoRepeats(log)
    ensures NoRepeats(WithInit(hasInit, log))
    ensures forall m: nat :: m in WithInit(hasInit, log) <==> m in log && m < |hasInit| && hasInit[m]
  {
    if log != [] {
      CallsOnce(hasInit, log[..|log| - 1]);
      assert log == log[..|log| - 1] + [log[|log| - 1]];
    }
  }
}
