/** Startup always makes progress (server/servicemanager.cpp:240-267, 298-314). */
module ServiceStartup {
  import opened Counting
  import opened Dependencies
  import opened Controllers
  import opened ServiceManager
  import opened ServiceOrdering

  /** Nothing was stopped and nothing went down: a service runs exactly when its controller has left
      the stopped state, and then its dependencies are initialized, which takes a running service. */
  predicate Booting(w: World, m: Mgr) {
    Fits(w, m) && forall s | s in w.tree :: Boots(w, m, s)
  }

  predicate Boots(w: World, m: Mgr, s: string)
    requires Fits(w, m) && s in w.tree
  {
    var c := m.ctl[s];
    && WellKept(c)
    && (IsRunning(c) <==> c.state != StateStopped)
    && (c.initialized ==> IsRunning(c))
    && (IsRunning(c) ==> AllInit(w, m, s))
  }

  predicate AllInit(w: World, m: Mgr, s: string)
    requires s in w.tree
  {
    forall d | d in w.tree[s] :: d in m.ctl && m.ctl[d].initialized
  }

  /** Running, or on its way. */
  predicate Up(m: Mgr, s: string) {
    s in m.ctl && (IsRunning(m.ctl[s]) || s in m.pending)
  }

  /** A pending service waits with reason: some dependency is not initialized, and all of them are
      running or pending. The services of `exempt` are still being handled. */
  predicate Waits(w: World, m: Mgr, p: string, exempt: set<string>)
    requires p in w.tree && Fits(w, m)
  {
    !IsRunning(m.ctl[p]) && !AllInit(w, m, p) && forall d | d in w.tree[p] :: Up(m, d) || d in exempt
  }

  predicate AllWait(w: World, m: Mgr, exempt: set<string>)
    requires Fits(w, m)
  {
    forall p | p in m.pending && p !in exempt :: Waits(w, m, p, exempt)
  }

  predicate Grows(m: Mgr, r: Mgr) {
    && r.ctl.Keys == m.ctl.Keys && m.pending <= r.pending
    && forall s | s in m.ctl && IsRunning(m.ctl[s]) :: IsRunning(r.ctl[s])
  }

  /** Nothing that ranks above `k` was touched. */
  predicate SameAbove(w: World, m: Mgr, r: Mgr, k: nat)
    requires Fits(w, m) && Fits(w, r) && Sound(w)
  {
    forall s | s in w.tree && w.rank[s] > k :: r.ctl[s] == m.ctl[s] && (s in r.pending <==> s in m.pending)
  }

  // ----- starting one service -----

  lemma {:induction false} StartBoots(w: World, m: Mgr, s: string, reg: set<string>, later: set<string>, stack: set<string>)
    requires Sound(w) && Booting(w, m) && s in w.tree && AllWait(w, m, later + stack + {s})
    requires s in later || s !in m.pending || !AllInit(w, m, s)
    requires forall x | x in stack :: x in w.tree && w.rank[x] > w.rank[s]
    ensures var r := StartService(w, m, s, reg);
            && Booting(w, r) && AllWait(w, r, later + stack) && Up(r, s)
            && Grows(m, r) && SameInit(m, r) && SameAbove(w, m, r, w.rank[s])
    decreases w.rank[s], 1, 0
  {
    var m1 := m.(stopped := m.stopped - {s});
    if IsRunning(m.ctl[s]) {
      NarrowRunning(w, m, s, later, stack);
    } else {
      StartDepsBoots(w, m1, s, w.tree[s], false, reg, later, stack);
      var (m2, queued) := StartDeps(w, m1, s, w.tree[s], false, reg);
      if queued {
        NarrowQueued(w, m2, s, later, stack);
      } else {
        StartedBoots(w, m2, s, reg, later, stack);
      }
    }
  }

  lemma NarrowRunning(w: World, m: Mgr, s: string, later: set<string>, stack: set<string>)
    requires Sound(w) && Booting(w, m) && s in w.tree && AllWait(w, m, later + stack + {s}) && IsRunning(m.ctl[s])
    requires s in later || s !in m.pending || !AllInit(w, m, s)
    ensures AllWait(w, m.(stopped := m.stopped - {s}), later + stack) && Booting(w, m.(stopped := m.stopped - {s}))
  {
    var m1 := m.(stopped := m.stopped - {s});
    forall x | x in w.tree ensures Boots(w, m1, x) { assert Boots(w, m, x); }
    forall p | p in m1.pending && p !in later + stack ensures Waits(w, m1, p, later + stack) {
      assert p != s;
      assert Waits(w, m, p, later + stack + {s});
    }
  }

  lemma NarrowQueued(w: World, m: Mgr, s: string, later: set<string>, stack: set<string>)
    requires Sound(w) && Booting(w, m) && s in w.tree && AllWait(w, m, later + stack + {s})
    requires s in m.pending && !IsRunning(m.ctl[s]) && !AllInit(w, m, s) && forall d | d in w.tree[s] :: Up(m, d)
    ensures AllWait(w, m, later + stack)
  {
    forall p | p in m.pending && p !in later + stack ensures Waits(w, m, p, later + stack) {
      if p != s { assert Waits(w, m, p, later + stack + {s}); }
    }
  }

  lemma StartedBoots(w: World, m: Mgr, s: string, reg: set<string>, later: set<string>, stack: set<string>)
    requires Sound(w) && Booting(w, m) && s in w.tree && AllWait(w, m, later + stack + {s})
    requires AllInit(w, m, s) && !IsRunning(m.ctl[s]) && (s in later || s !in m.pending)
    ensures var r := CallStart(m, s, reg);
            && Booting(w, r) && AllWait(w, r, later + stack) && Up(r, s)
            && Grows(m, r) && SameInit(m, r) && SameAbove(w, m, r, w.rank[s])
  {
    var r := CallStart(m, s, reg);
    assert Boots(w, m, s);
    StartShape(m.ctl[s], s in reg);
    SlotsKeepWellKept(m.ctl[s], s in reg, false);
    StartedOne(w, m, s, r);
    StartedWaits(w, m, s, r, later, stack);
  }

  lemma StartedWaits(w: World, m: Mgr, s: string, r: Mgr, later: set<string>, stack: set<string>)
    requires Fits(w, m) && Fits(w, r) && s in w.tree && AllWait(w, m, later + stack + {s}) && (s in later || s !in m.pending)
    requires IsRunning(r.ctl[s]) && r.pending == m.pending && SameInit(m, r) && r.ctl == m.ctl[s := r.ctl[s]]
    ensures AllWait(w, r, later + stack)
  {
    forall p | p in r.pending && p !in later + stack ensures Waits(w, r, p, later + stack) {
      assert p != s;
      assert Waits(w, m, p, later + stack + {s});
    }
  }

  lemma StartedOne(w: World, m: Mgr, s: string, r: Mgr)
    requires Sound(w) && Booting(w, m) && s in w.tree && AllInit(w, m, s)
    requires s in r.ctl && WellKept(r.ctl[s]) && r.ctl == m.ctl[s := r.ctl[s]]
    requires r.pending == m.pending && r.stopped == m.stopped
    requires IsRunning(r.ctl[s]) && r.ctl[s].state != StateStopped && r.ctl[s].initialized == m.ctl[s].initialized
    ensures Booting(w, r)
  {
    forall x | x in w.tree ensures Boots(w, r, x) { assert Boots(w, m, x); }
  }

  /** The loop over the dependencies of `s`, which is being started. */
  lemma {:induction false} StartDepsBoots(w: World, m: Mgr, s: string, deps: seq<string>, queued: bool,
                                          reg: set<string>, later: set<string>, stack: set<string>)
    requires Sound(w) && Booting(w, m) && s in w.tree && AllWait(w, m, later + stack + {s})
    requires forall d | d in deps :: d in w.tree[s]
    requires forall x | x in stack :: x in w.tree && w.rank[x] > w.rank[s]
    requires queued ==> s in m.pending
    ensures var (r, late) := StartDeps(w, m, s, deps, queued, reg);
            && Booting(w, r) && AllWait(w, r, later + stack + {s})
            && Grows(m, r) && SameInit(m, r) && SameAbove(w, m, r, w.rank[s]) && r.ctl[s] == m.ctl[s]
            && (forall d | d in deps :: Up(r, d))
            && (late <==> queued || exists d | d in deps :: !m.ctl[d].initialized)
            && (s in r.pending <==> late || s in m.pending)
    decreases w.rank[s], 0, |deps|
  {
    if deps != [] {
      var d := deps[0];
      assert d in deps;
      var wait := !queued && !m.ctl[d].initialized;
      var m1 := if wait then m.(pending := m.pending + {s}) else m;
      Widened(w, m, s, later + stack);
      OneDepBoots(w, m1, s, d, reg, later, stack);
      var m2 := if IsRunning(m1.ctl[d]) then m1 else StartService(w, m1, d, reg);
      DepStep(w, m, m1, m2, s, d);
      StartDepsBoots(w, m2, s, deps[1..], queued || wait, reg, later, stack);
      var r := StartDeps(w, m2, s, deps[1..], queued || wait, reg).0;
      GrowsOn(w, m, m2, r, w.rank[s]);
      assert forall x :: x in deps <==> x == d || x in deps[1..];
    }
  }

  lemma DepStep(w: World, m: Mgr, m1: Mgr, m2: Mgr, s: string, d: string)
    requires Sound(w) && Fits(w, m) && Fits(w, m1) && Fits(w, m2) && s in w.tree && d in w.tree[s]
    requires m1.ctl == m.ctl && (m1.pending == m.pending || m1.pending == m.pending + {s})
    requires Grows(m1, m2) && SameInit(m1, m2) && SameAbove(w, m1, m2, w.rank[d])
    ensures Grows(m, m2) && SameInit(m, m2) && SameAbove(w, m, m2, w.rank[s])
    ensures m2.ctl[s] == m.ctl[s] && (s in m2.pending <==> s in m1.pending)
  {
  }

  lemma GrowsOn(w: World, m: Mgr, m2: Mgr, r: Mgr, k: nat)
    requires Sound(w) && Fits(w, m) && Fits(w, m2) && Fits(w, r)
    requires Grows(m, m2) && SameInit(m, m2) && SameAbove(w, m, m2, k)
    requires Grows(m2, r) && SameInit(m2, r) && SameAbove(w, m2, r, k)
    ensures Grows(m, r) && SameInit(m, r) && SameAbove(w, m, r, k)
    ensures forall x | Up(m2, x) :: Up(r, x)
  {
  }

  lemma {:induction false} OneDepBoots(w: World, m: Mgr, s: string, d: string, reg: set<string>, later: set<string>,
                                       stack: set<string>)
    requires Sound(w) && Booting(w, m) && s in w.tree && AllWait(w, m, later + stack + {s}) && d in w.tree[s]
    requires forall x | x in stack :: x in w.tree && w.rank[x] > w.rank[s]
    ensures var r := if IsRunning(m.ctl[d]) then m else StartService(w, m, d, reg);
            && Booting(w, r) && AllWait(w, r, later + stack + {s}) && Up(r, d)
            && Grows(m, r) && SameInit(m, r) && SameAbove(w, m, r, w.rank[d])
    decreases w.rank[s], 0, 0
  {
    if !IsRunning(m.ctl[d]) {
      if d in m.pending && d !in later { assert Waits(w, m, d, later + stack + {s}); }
      WiderWait(w, m, later + stack + {s}, later + (stack + {s}) + {d});
      StartBoots(w, m, d, reg, later, stack + {s});
      assert later + (stack + {s}) == later + stack + {s};
    }
  }

  lemma Widened(w: World, m: Mgr, s: string, others: set<string>)
    requires Fits(w, m) && Booting(w, m) && s in w.tree && AllWait(w, m, others + {s})
    ensures var m1 := m.(pending := m.pending + {s});
            Booting(w, m1) && AllWait(w, m1, others + {s})
  {
    var m1 := m.(pending := m.pending + {s});
    forall x | x in w.tree ensures Boots(w, m1, x) { assert Boots(w, m, x); }
    forall p | p in m1.pending && p !in others + {s} ensures Waits(w, m1, p, others + {s}) {
      assert Waits(w, m, p, others + {s});
    }
  }

  lemma WiderWait(w: World, m: Mgr, exempt: set<string>, wider: set<string>)
    requires Fits(w, m) && AllWait(w, m, exempt) && exempt <= wider
    ensures AllWait(w, m, wider)
  {
    forall p | p in m.pending && p !in wider ensures Waits(w, m, p, wider) { assert Waits(w, m, p, exempt); }
  }

  // ----- the loops -----

  predicate StaysUp(m: Mgr, r: Mgr) {
    forall s | s in m.ctl && Up(m, s) :: Up(r, s)
  }

  lemma {:induction false} StartEachBoots(w: World, m: Mgr, names: seq<string>, reg: set<string>)
    requires Sound(w) && Booting(w, m) && AllWait(w, m, {}) && forall x | x in names :: x in w.tree
    ensures var r := StartEach(w, m, names, reg);
            Booting(w, r) && AllWait(w, r, {}) && StaysUp(m, r) && forall x | x in names :: Up(r, x)
    decreases |names|
  {
    if names != [] {
      assert names[0] in names;
      StartOneBoots(w, m, names[0], reg);
      StartEachBoots(w, StartService(w, m, names[0], reg), names[1..], reg);
    }
  }

  lemma StartOneBoots(w: World, m: Mgr, s: string, reg: set<string>)
    requires Sound(w) && Booting(w, m) && AllWait(w, m, {}) && s in w.tree
    ensures var r := StartService(w, m, s, reg);
            Booting(w, r) && AllWait(w, r, {}) && StaysUp(m, r) && Up(r, s)
  {
    if s in m.pending { assert Waits(w, m, s, {}); }
    WiderWait(w, m, {}, {} + {} + {s});
    StartBoots(w, m, s, reg, {}, {});
    var none: set<string> := {};
    assert none + none == none;
  }

  /** The services of a list that depend on `s`. */
  function Affected(w: World, s: string, order: seq<string>): set<string>
    requires forall x | x in order :: x in w.tree
  {
    set x | x in order && s in w.tree[x]
  }

  lemma {:induction false} RetryBoots(w: World, m: Mgr, s: string, order: seq<string>, reg: set<string>)
    requires Sound(w) && Booting(w, m) && NoRepeats(order) && forall x | x in order :: x in w.tree
    requires AllWait(w, m, Affected(w, s, order))
    ensures var r := Retry(w, m, s, order, reg);
            Booting(w, r) && AllWait(w, r, {}) && StaysUp(m, r)
    decreases |order|
  {
    if order != [] {
      var x := order[0];
      var rest := order[1..];
      assert x in order && x !in rest;
      assert forall y :: y in order <==> y == x || y in rest;
      if s in w.tree[x] {
        assert Affected(w, s, order) == Affected(w, s, rest) + {} + {x};
        var m1 := RetryOneBoots(w, m, x, reg, Affected(w, s, rest));
        RetryBoots(w, m1, s, rest, reg);
      } else {
        assert Affected(w, s, order) == Affected(w, s, rest);
        RetryBoots(w, m, s, rest, reg);
      }
    }
  }

  lemma RetryOneBoots(w: World, m: Mgr, x: string, reg: set<string>, others: set<string>) returns (r: Mgr)
    requires Sound(w) && Booting(w, m) && x in w.tree && x !in others && AllWait(w, m, others + {} + {x})
    ensures r == StartService(w, m.(pending := m.pending - {x}), x, reg)
    ensures Booting(w, r) && AllWait(w, r, others) && StaysUp(m, r)
  {
    var m0 := m.(pending := m.pending - {x});
    OneLess(w, m, x, others);
    StartBoots(w, m0, x, reg, others, {});
    r := StartService(w, m0, x, reg);
    assert others + {} == others;
  }

  lemma OneLess(w: World, m: Mgr, x: string, others: set<string>)
    requires Booting(w, m) && x in w.tree && AllWait(w, m, others + {} + {x})
    ensures var m0 := m.(pending := m.pending - {x});
            Booting(w, m0) && AllWait(w, m0, others + {} + {x})
  {
    var m0 := m.(pending := m.pending - {x});
    forall y | y in w.tree ensures Boots(w, m0, y) { assert Boots(w, m, y); }
    forall p | p in m0.pending && p !in others + {} + {x} ensures Waits(w, m0, p, others + {} + {x}) {
      assert Waits(w, m, p, others + {} + {x});
    }
  }

  // ----- runs -----

  /** Start requests, reports of running services and what the bus says about them. */
  predicate StartupEvent(m: Mgr, e: Event) {
    match e
    case StartRequest(_, _) => true
    case StartAllRequest(_, _) => true
    case ReportsInit(name, _, _, _) => name in m.ctl && IsRunning(m.ctl[name])
    case NameTaken(name) => name in m.ctl && IsRunning(m.ctl[name])
    case InterfaceLost(name) => true
    case InterfaceMade(name) => true
    case _ => false
  }

  predicate Asks(e: Event, s: string) {
    match e
    case StartRequest(name, _) => s == name
    case StartAllRequest(names, _) => s in names
    case _ => false
  }

  lemma SetCtlBoots(w: World, m: Mgr, s: string, c: Ctl)
    requires Sound(w) && Booting(w, m) && AllWait(w, m, {}) && s in w.tree && WellKept(c)
    requires c.initialized == m.ctl[s].initialized && IsRunning(c) == IsRunning(m.ctl[s])
    requires (c.state == StateStopped) == (m.ctl[s].state == StateStopped)
    ensures var r := SetCtl(m, s, c); Booting(w, r) && AllWait(w, r, {}) && StaysUp(m, r)
  {
    var r := SetCtl(m, s, c);
    forall x | x in w.tree ensures Boots(w, r, x) { assert Boots(w, m, x); }
    forall p | p in r.pending ensures Waits(w, r, p, {}) {
      assert Waits(w, m, p, {});
      forall d | d in w.tree[p] ensures Up(r, d) { assert Up(m, d); }
    }
  }

  lemma ReportBoots(w: World, m: Mgr, e: Event)
    requires Sound(w) && Booting(w, m) && AllWait(w, m, {}) && Possible(w, m, e) && StartupEvent(m, e) && e.ReportsInit?
    ensures var r := Apply(w, m, e); Booting(w, r) && AllWait(w, r, {}) && StaysUp(m, r)
  {
    var c := Reported(m.ctl[e.name], e.success);
    SlotsKeepWellKept(m.ctl[e.name], false, e.success);
    if !e.success || m.ctl[e.name].initialized {
      SetCtlBoots(w, m, e.name, c);
    } else {
      var r := SetCtl(m, e.name, c);
      assert Booting(w, r) by {
        forall x | x in w.tree ensures Boots(w, r, x) { assert Boots(w, m, x); }
      }
      var affected := Affected(w, e.name, e.order);
      forall p | p in r.pending && p !in affected ensures Waits(w, r, p, affected) {
        assert p in e.order;
        assert Waits(w, m, p, {});
        forall d | d in w.tree[p] ensures Up(r, d) { assert Up(m, d); }
        var d :| d in w.tree[p] && !m.ctl[d].initialized;
        assert !r.ctl[d].initialized;
      }
      RetryBoots(w, r, e.name, e.order, e.reg);
    }
  }

  lemma EventBoots(w: World, m: Mgr, e: Event)
    requires Sound(w) && Booting(w, m) && AllWait(w, m, {}) && Possible(w, m, e) && StartupEvent(m, e)
    ensures var r := Apply(w, m, e);
            Booting(w, r) && AllWait(w, r, {}) && StaysUp(m, r) && forall s | s in w.tree && Asks(e, s) :: Up(r, s)
  {
    match e
    case StartRequest(name, reg) => if name in w.tree { StartOneBoots(w, m, name, reg); }
    case StartAllRequest(names, reg) => StartEachBoots(w, m, names, reg);
    case ReportsInit(_, _, _, _) => ReportBoots(w, m, e);
    case NameTaken(name) =>
      SlotsKeepWellKept(m.ctl[name], false, false);
      SetCtlBoots(w, m, name, Registered(m.ctl[name]));
    case InterfaceLost(name) => SetCtlBoots(w, m, name, m.ctl[name].(hasInterface := false));
    case InterfaceMade(name) =>
      SlotsKeepWellKept(m.ctl[name], false, false);
      SetCtlBoots(w, m, name, WithInterface(m.ctl[name]));
  }

  lemma {:induction false} RunBoots(w: World, states: seq<Mgr>, events: seq<Event>)
    requires Sound(w) && IsRun(w, states, events) && Initial(w, states[0])
    requires forall i | 0 <= i < |events| :: StartupEvent(states[i], events[i])
    ensures var m := states[|events|];
            && Booting(w, m) && AllWait(w, m, {})
            && forall i, s | 0 <= i < |events| && s in w.tree && Asks(events[i], s) :: Up(m, s)
    decreases |events|
  {
    if events != [] {
      var n := |events| - 1;
      assert IsRun(w, states[..|events|], events[..n]);
      RunBoots(w, states[..|events|], events[..n]);
      EventBoots(w, states[n], events[n]);
      forall i, s | 0 <= i < |events| && s in w.tree && Asks(events[i], s) ensures Up(states[|events|], s) {
        if i < n {
          assert events[..n][i] == events[i];
          assert Up(states[n], s);
        }
      }
    }
  }

  // ----- progress -----

  /** As long as something is pending, some running service has still to report. */
  lemma {:induction false} PendingHasCause(w: World, m: Mgr, p: string) returns (cause: string)
    requires Sound(w) && Booting(w, m) && AllWait(w, m, {}) && p in m.pending
    ensures cause in w.tree && Reaches(w.tree, p, cause) && IsRunning(m.ctl[cause]) && !m.ctl[cause].initialized
    decreases w.rank[p]
  {
    assert Waits(w, m, p, {});
    var d :| d in w.tree[p] && !m.ctl[d].initialized;
    ReachesDirectly(w.tree, p, d);
    if IsRunning(m.ctl[d]) {
      cause := d;
    } else {
      assert Up(m, d);
      cause := PendingHasCause(w, m, d);
      ReachesThrough(w.tree, p, d, cause);
    }
  }

  /** Everything a running service depends on, directly or not, is running and initialized. */
  lemma {:induction false} DependenciesRun(w: World, m: Mgr, p: seq<string>)
    requires Sound(w) && Booting(w, m) && IsPath(w.tree, p) && |p| >= 2
    requires p[0] in w.tree && IsRunning(m.ctl[p[0]])
    ensures p[|p| - 1] in w.tree && IsRunning(m.ctl[p[|p| - 1]]) && m.ctl[p[|p| - 1]].initialized
    decreases |p|
  {
    assert Boots(w, m, p[0]);
    assert p[1] in Deps(w.tree, p[0]) && AllInit(w, m, p[0]);
    assert Boots(w, m, p[1]);
    if |p| > 2 {
      var q := p[1..];
      forall i | 0 <= i < |q| - 1 ensures q[i + 1] in Deps(w.tree, q[i]) { assert p[i + 2] in Deps(w.tree, p[i + 1]); }
      DependenciesRun(w, m, q);
    }
  }

  /** Startup: in every run of start requests and reports, each pending service waits for a
      dependency that runs and has not reported; once all running services have reported, nothing
      is pending and every service that was asked for runs, with all it depends on initialized. */
  lemma StartupProgress(w: World, states: seq<Mgr>, events: seq<Event>)
    requires Sound(w) && IsRun(w, states, events) && Initial(w, states[0])
    requires forall i | 0 <= i < |events| :: StartupEvent(states[i], events[i])
    ensures var m := states[|events|]; Fits(w, m) && AllWait(w, m, {})
    ensures var m := states[|events|];
            forall p | p in m.pending ::
              exists c | c in w.tree :: Reaches(w.tree, p, c) && IsRunning(m.ctl[c]) && !m.ctl[c].initialized
    ensures var m := states[|events|];
            (forall s | s in Running(m) :: s in Initialized(m)) ==>
              && m.pending == {}
              && forall i, s | 0 <= i < |events| && s in w.tree && Asks(events[i], s) ::
                   s in Running(m) && forall d | Reaches(w.tree, s, d) :: d in Running(m) && d in Initialized(m)
  {
    var m := states[|events|];
    RunBoots(w, states, events);
    forall p | p in m.pending
      ensures exists c | c in w.tree :: Reaches(w.tree, p, c) && IsRunning(m.ctl[c]) && !m.ctl[c].initialized
      ensures exists c :: c in Running(m) && c !in Initialized(m)
    {
      var c := PendingHasCause(w, m, p);
      assert c in Running(m) && c !in Initialized(m);
    }
    if forall s | s in Running(m) :: s in Initialized(m) {
      assert forall p | p in m.pending :: exists c :: c in Running(m) && c !in Initialized(m);
      forall i, s, d | 0 <= i < |events| && s in w.tree && Asks(events[i], s) && Reaches(w.tree, s, d)
        ensures d in Running(m) && d in Initialized(m)
      {
        assert Up(m, s);
        var p :| Joins(w.tree, p, s, d);
        DependenciesRun(w, m, p);
      }
    }
  }
}
