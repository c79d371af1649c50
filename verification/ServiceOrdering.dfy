/** In which order services are started and stopped, over all runs
    (server/servicemanager.cpp:240-346). */
module ServiceOrdering {
  import opened Dependencies
  import opened Controllers
  import opened ServiceManager

  /** start() comes after every direct dependency is initialized and none was reset since, stop() when
      nothing that depends on the service directly is running. */
  predicate InOrder(w: World, c: Call) {
    match c
    case StartCall(s, ready) => s in w.tree && forall d | d in w.tree[s] :: d in ready
    case StopCall(s, running) => forall x | x in w.tree && s in w.tree[x] :: x !in running
  }

  predicate AllInOrder(w: World, m: Mgr) {
    forall c | c in m.calls :: InOrder(w, c)
  }

  predicate AllKept(m: Mgr) {
    forall s | s in m.ctl :: WellKept(m.ctl[s])
  }

  predicate Tidy(w: World, m: Mgr) {
    Fits(w, m) && AllKept(m) && AllInOrder(w, m)
  }

  /** The same services claim to be initialized. */
  predicate SameInit(m: Mgr, r: Mgr) {
    m.ctl.Keys == r.ctl.Keys && forall x | x in m.ctl :: r.ctl[x].initialized == m.ctl[x].initialized
  }

  // ----- starting -----

  lemma CallStartInOrder(w: World, m: Mgr, s: string, reg: set<string>)
    requires Sound(w) && Tidy(w, m) && s in w.tree
    requires forall d | d in w.tree[s] :: m.ctl[d].initialized
    ensures Tidy(w, CallStart(m, s, reg)) && SameInit(m, CallStart(m, s, reg))
  {
    SlotsKeepWellKept(m.ctl[s], s in reg, false);
    StartShape(m.ctl[s], s in reg);
    CallAdded(w, m, s, Start(m.ctl[s], s in reg), StartCall(s, Ready(m)));
  }

  lemma CallAdded(w: World, m: Mgr, s: string, c: Ctl, call: Call)
    requires Tidy(w, m) && s in w.tree && WellKept(c) && InOrder(w, call)
    ensures Tidy(w, m.(ctl := m.ctl[s := c], calls := m.calls + [call]))
  {
  }

  lemma {:induction false} StartInOrder(w: World, m: Mgr, s: string, reg: set<string>)
    requires Sound(w) && Tidy(w, m) && s in w.tree
    ensures Tidy(w, StartService(w, m, s, reg)) && SameInit(m, StartService(w, m, s, reg))
    decreases w.rank[s], 1, 0
  {
    var m1 := m.(stopped := m.stopped - {s});
    if !IsRunning(m.ctl[s]) {
      StartDepsInOrder(w, m1, s, w.tree[s], false, reg);
      var (m2, queued) := StartDeps(w, m1, s, w.tree[s], false, reg);
      if !queued { CallStartInOrder(w, m2, s, reg); }
    }
  }

  lemma {:induction false} StartDepsInOrder(w: World, m: Mgr, s: string, deps: seq<string>, queued: bool, reg: set<string>)
    requires Sound(w) && Tidy(w, m) && s in w.tree && forall d | d in deps :: d in w.tree[s]
    ensures var (r, late) := StartDeps(w, m, s, deps, queued, reg);
            Tidy(w, r) && SameInit(m, r) && (late <==> queued || exists d | d in deps :: !m.ctl[d].initialized)
    decreases w.rank[s], 0, |deps|
  {
    if deps != [] {
      var d := deps[0];
      assert d in deps;
      var wait := !queued && !m.ctl[d].initialized;
      var m1 := if wait then m.(pending := m.pending + {s}) else m;
      if !IsRunning(m1.ctl[d]) { StartInOrder(w, m1, d, reg); }
      var m2 := if IsRunning(m1.ctl[d]) then m1 else StartService(w, m1, d, reg);
      StartDepsInOrder(w, m2, s, deps[1..], queued || wait, reg);
      assert forall x :: x in deps <==> x == d || x in deps[1..];
    }
  }

  // ----- stopping -----

  lemma CallStopInOrder(w: World, m: Mgr, s: string)
    requires Sound(w) && Tidy(w, m) && s in w.tree
    requires forall x | x in w.tree && s in w.tree[x] :: !IsRunning(m.ctl[x])
    ensures Tidy(w, CallStop(m, s))
  {
    SlotsKeepWellKept(m.ctl[s], false, false);
    assert InOrder(w, StopCall(s, Running(m)));
  }

  lemma {:induction false} StopInOrder(w: World, m: Mgr, s: string)
    requires Sound(w) && Tidy(w, m) && s in w.tree
    ensures Tidy(w, StopService(w, m, s))
    decreases w.top - w.rank[s], 1, 0
  {
    var m1 := m.(pending := m.pending - {s});
    if IsRunning(m.ctl[s]) {
      var deps := RevDeps(w.tree, w.keys, s);
      StopRevDepsInOrder(w, m1, s, deps, false);
      var (m2, waiting) := StopRevDeps(w, m1, s, deps, false);
      if !waiting { CallStopInOrder(w, m2.(stopped := m2.stopped - {s}), s); }
    }
  }

  lemma {:induction false} StopRevDepsInOrder(w: World, m: Mgr, s: string, deps: seq<string>, waiting: bool)
    requires Sound(w) && Tidy(w, m) && s in w.tree && forall d | d in deps :: d in w.tree && s in w.tree[d]
    ensures var (r, late) := StopRevDeps(w, m, s, deps, waiting);
            Tidy(w, r) && (waiting ==> late) && (!late ==> r == m && forall d | d in deps :: !IsRunning(m.ctl[d]))
    decreases w.top - w.rank[s], 0, |deps|
  {
    if deps != [] {
      var d := deps[0];
      assert d in deps;
      assert forall x :: x in deps <==> x == d || x in deps[1..];
      if IsRunning(m.ctl[d]) {
        var m0 := m.(stopped := m.stopped + {s});
        StopInOrder(w, m0, d);
        var m1 := StopService(w, m0, d);
        StopRevDepsInOrder(w, m1.(pending := m1.pending + {d}), s, deps[1..], true);
      } else {
        StopRevDepsInOrder(w, m, s, deps[1..], waiting);
      }
    }
  }

  // ----- the later request wins -----

  /** Starting a service cancels a stop it was waiting for, and queues no stop. */
  lemma {:induction false} StartCancelsStop(w: World, m: Mgr, s: string, reg: set<string>)
    requires Sound(w) && Fits(w, m) && s in w.tree
    ensures StartService(w, m, s, reg).stopped <= m.stopped - {s}
    decreases w.rank[s], 1, 0
  {
    if !IsRunning(m.ctl[s]) { StartDepsCancelStops(w, m.(stopped := m.stopped - {s}), s, w.tree[s], false, reg); }
  }

  lemma {:induction false} StartDepsCancelStops(w: World, m: Mgr, s: string, deps: seq<string>, queued: bool, reg: set<string>)
    requires Sound(w) && Fits(w, m) && s in w.tree && forall d | d in deps :: d in w.tree[s]
    ensures StartDeps(w, m, s, deps, queued, reg).0.stopped <= m.stopped
    decreases w.rank[s], 0, |deps|
  {
    if deps != [] {
      var d := deps[0];
      assert d in deps;
      var wait := !queued && !m.ctl[d].initialized;
      var m1 := if wait then m.(pending := m.pending + {s}) else m;
      if !IsRunning(m1.ctl[d]) { StartCancelsStop(w, m1, d, reg); }
      var m2 := if IsRunning(m1.ctl[d]) then m1 else StartService(w, m1, d, reg);
      StartDepsCancelStops(w, m2, s, deps[1..], queued || wait, reg);
    }
  }

  /** What runs is left as it is, with the stop it may wait for. */
  predicate LeavesRunning(w: World, m: Mgr, r: Mgr, but: set<string>)
    requires Fits(w, m) && Fits(w, r)
  {
    forall x | x in w.tree && IsRunning(m.ctl[x]) ::
      r.ctl[x] == m.ctl[x] && (x in m.stopped && x !in but ==> x in r.stopped)
  }

  /** Starting a service has no effect on any other that runs already, dependencies included. */
  lemma {:induction false} StartLeavesRunning(w: World, m: Mgr, s: string, reg: set<string>)
    requires Sound(w) && Fits(w, m) && s in w.tree
    ensures LeavesRunning(w, m, StartService(w, m, s, reg), {s})
    decreases w.rank[s], 1, 0
  {
    if !IsRunning(m.ctl[s]) {
      StartDepsLeaveRunning(w, m.(stopped := m.stopped - {s}), s, w.tree[s], false, reg);
    }
  }

  lemma {:induction false} StartDepsLeaveRunning(w: World, m: Mgr, s: string, deps: seq<string>, queued: bool, reg: set<string>)
    requires Sound(w) && Fits(w, m) && s in w.tree && forall d | d in deps :: d in w.tree[s]
    ensures LeavesRunning(w, m, StartDeps(w, m, s, deps, queued, reg).0, {})
    decreases w.rank[s], 0, |deps|
  {
    if deps != [] {
      var d := deps[0];
      assert d in deps;
      var wait := !queued && !m.ctl[d].initialized;
      var m1 := if wait then m.(pending := m.pending + {s}) else m;
      if !IsRunning(m1.ctl[d]) { StartLeavesRunning(w, m1, d, reg); }
      var m2 := if IsRunning(m1.ctl[d]) then m1 else StartService(w, m1, d, reg);
      StartDepsLeaveRunning(w, m2, s, deps[1..], queued || wait, reg);
    }
  }

  /** Stopping a service cancels a start it was waiting for; only services above it are queued. */
  lemma {:induction false} StopCancelsStart(w: World, m: Mgr, s: string)
    requires Sound(w) && Fits(w, m) && s in w.tree
    ensures forall x | x in StopService(w, m, s).pending :: x != s && (x in m.pending || w.rank[x] > w.rank[s])
    decreases w.top - w.rank[s], 1, 0
  {
    if IsRunning(m.ctl[s]) {
      StopRevDepsQueueAbove(w, m.(pending := m.pending - {s}), s, RevDeps(w.tree, w.keys, s), false);
    }
  }

  lemma {:induction false} StopRevDepsQueueAbove(w: World, m: Mgr, s: string, deps: seq<string>, waiting: bool)
    requires Sound(w) && Fits(w, m) && s in w.tree && forall d | d in deps :: d in w.tree && s in w.tree[d]
    ensures forall x | x in StopRevDeps(w, m, s, deps, waiting).0.pending :: x in m.pending || w.rank[x] > w.rank[s]
    decreases w.top - w.rank[s], 0, |deps|
  {
    if deps != [] {
      var d := deps[0];
      assert d in deps;
      if IsRunning(m.ctl[d]) {
        var m0 := m.(stopped := m.stopped + {s});
        StopCancelsStart(w, m0, d);
        var m1 := StopService(w, m0, d);
        StopRevDepsQueueAbove(w, m1.(pending := m1.pending + {d}), s, deps[1..], true);
      } else {
        StopRevDepsQueueAbove(w, m, s, deps[1..], waiting);
      }
    }
  }

  // ----- loops -----

  lemma {:induction false} RetryInOrder(w: World, m: Mgr, s: string, order: seq<string>, reg: set<string>)
    requires Sound(w) && Tidy(w, m) && forall x | x in order :: x in w.tree
    ensures Tidy(w, Retry(w, m, s, order, reg))
    decreases |order|
  {
    if order != [] {
      var x := order[0];
      assert x in order;
      var m0 := m.(pending := m.pending - {x});
      if s in w.tree[x] { StartInOrder(w, m0, x, reg); }
      RetryInOrder(w, if s in w.tree[x] then StartService(w, m0, x, reg) else m, s, order[1..], reg);
    }
  }

  lemma {:induction false} StopWaitingInOrder(w: World, m: Mgr, order: seq<string>)
    requires Sound(w) && Tidy(w, m) && forall x | x in order :: x in w.tree
    ensures Tidy(w, StopWaiting(w, m, order))
    decreases |order|
  {
    if order != [] {
      var x := order[0];
      assert x in order;
      var m0 := m.(stopped := m.stopped - {x});
      StopInOrder(w, m0, x);
      StopWaitingInOrder(w, StopService(w, m0, x), order[1..]);
    }
  }

  lemma {:induction false} StopDependentsInOrder(w: World, m: Mgr, deps: seq<string>)
    requires Sound(w) && Tidy(w, m) && forall d | d in deps :: d in w.tree
    ensures Tidy(w, StopDependents(w, m, deps))
    decreases |deps|
  {
    if deps != [] {
      var d := deps[0];
      assert d in deps;
      if IsRunning(m.ctl[d]) {
        StopInOrder(w, m, d);
        var m1 := StopService(w, m, d);
        StopDependentsInOrder(w, m1.(pending := m1.pending + {d}), deps[1..]);
      } else {
        StopDependentsInOrder(w, m, deps[1..]);
      }
    }
  }

  lemma {:induction false} StartEachInOrder(w: World, m: Mgr, names: seq<string>, reg: set<string>)
    requires Sound(w) && Tidy(w, m) && forall x | x in names :: x in w.tree
    ensures Tidy(w, StartEach(w, m, names, reg))
    decreases |names|
  {
    if names != [] {
      assert names[0] in names;
      StartInOrder(w, m, names[0], reg);
      StartEachInOrder(w, StartService(w, m, names[0], reg), names[1..], reg);
    }
  }

  lemma {:induction false} StopEachInOrder(w: World, m: Mgr, names: seq<string>)
    requires Sound(w) && Tidy(w, m) && forall x | x in names :: x in w.tree
    ensures Tidy(w, StopEach(w, m, names))
    decreases |names|
  {
    if names != [] {
      assert names[0] in names;
      StopInOrder(w, m, names[0]);
      StopEachInOrder(w, StopService(w, m, names[0]), names[1..]);
    }
  }

  // ----- runs -----

  lemma ServiceStoppedInOrder(w: World, m: Mgr, s: string, order: seq<string>)
    requires Sound(w) && Tidy(w, m) && forall x | x in order :: x in w.tree
    ensures Tidy(w, ServiceStopped(w, m, s, order))
  {
    StopWaitingInOrder(w, m, order);
    StopDependentsInOrder(w, StopWaiting(w, m, order), RevDeps(w.tree, w.keys, s));
  }

  lemma SetCtlTidy(w: World, m: Mgr, s: string, c: Ctl)
    requires Tidy(w, m) && s in w.tree && WellKept(c)
    ensures Tidy(w, SetCtl(m, s, c))
  {
  }

  lemma RequestInOrder(w: World, m: Mgr, e: Event)
    requires Sound(w) && Tidy(w, m) && Possible(w, m, e)
    requires e.StartRequest? || e.StopRequest? || e.StartAllRequest? || e.StopAllRequest?
    ensures Tidy(w, Apply(w, m, e))
  {
    match e
    case StartRequest(name, reg) => if name in w.tree { StartInOrder(w, m, name, reg); }
    case StopRequest(name) => if name in w.tree { StopInOrder(w, m, name); }
    case StartAllRequest(names, reg) => StartEachInOrder(w, m, names, reg);
    case StopAllRequest(names) => StopEachInOrder(w, m.(pending := {}), names);
  }

  lemma ReportInOrder(w: World, m: Mgr, e: Event)
    requires Sound(w) && Tidy(w, m) && Possible(w, m, e) && !Late(m, e) && e.ReportsInit?
    ensures Tidy(w, Apply(w, m, e))
  {
    var c := Reported(m.ctl[e.name], e.success);
    SlotsKeepWellKept(m.ctl[e.name], false, e.success);
    SetCtlTidy(w, m, e.name, c);
    RetryInOrder(w, SetCtl(m, e.name, c), e.name, e.order, e.reg);
  }

  lemma NameGoneInOrder(w: World, m: Mgr, e: Event)
    requires Sound(w) && Tidy(w, m) && Possible(w, m, e) && e.NameGone?
    ensures Tidy(w, Apply(w, m, e))
  {
    ServiceStoppedInOrder(w, m, e.name, e.order);
    var m1 := ServiceStopped(w, m, e.name, e.order);
    SlotsKeepWellKept(m1.ctl[e.name], e.name in e.reg, false);
    SetCtlTidy(w, m1, e.name, AfterUnregistered(m1.ctl[e.name], e.name in e.reg));
  }

  /** Every event keeps the calls in order. */
  lemma EventInOrder(w: World, m: Mgr, e: Event)
    requires Sound(w) && Tidy(w, m) && Possible(w, m, e) && !Late(m, e)
    ensures Tidy(w, Apply(w, m, e))
  {
    if e.StartRequest? || e.StopRequest? || e.StartAllRequest? || e.StopAllRequest? {
      RequestInOrder(w, m, e);
    } else if e.ReportsInit? {
      ReportInOrder(w, m, e);
    } else if e.NameGone? {
      NameGoneInOrder(w, m, e);
    } else {
      var c := m.ctl[e.name];
      SlotsKeepWellKept(c, false, false);
      match e {
        case ProcessFinished(name, order) =>
          SetCtlTidy(w, m, name, Finished(c));
          ServiceStoppedInOrder(w, SetCtl(m, name, Finished(c)), name, order);
        case ProcessRelaunched(name) => SetCtlTidy(w, m, name, c.(processRunning := true));
        case ProcessFailed(name) => SetCtlTidy(w, m, name, c.(processRunning := false));
        case NameTaken(name) => SetCtlTidy(w, m, name, Registered(c));
        case InterfaceLost(name) => SetCtlTidy(w, m, name, c.(hasInterface := false));
        case InterfaceMade(name) => SetCtlTidy(w, m, name, WithInterface(c));
      }
    }
  }

  /** Whatever is asked, reported or goes down, in any order, with any walk over the waiting sets,
      and with attached or crashing services among them: every start() comes after all direct
      dependencies are initialized, every stop() when no direct dependent runs. */
  lemma {:induction false} RunsAreInOrder(w: World, states: seq<Mgr>, events: seq<Event>)
    requires Sound(w) && IsRun(w, states, events) && Initial(w, states[0])
    requires forall i | 0 <= i < |events| :: !Late(states[i], events[i])
    ensures Tidy(w, states[|events|])
    decreases |events|
  {
    if events != [] {
      var n := |events| - 1;
      assert IsRun(w, states[..|events|], events[..n]);
      RunsAreInOrder(w, states[..|events|], events[..n]);
      EventInOrder(w, states[n], events[n]);
    }
  }

  // ----- late reports -----

  /** A start touches only services that do not run, the one asked for and those it depends on. */
  ghost predicate Touches(w: World, m: Mgr, r: Mgr, s: string, reg: set<string>)
    requires Fits(w, m) && Fits(w, r)
  {
    forall x | x in w.tree ::
      r.ctl[x] == m.ctl[x]
      || (r.ctl[x] == Start(m.ctl[x], x in reg) && !IsRunning(m.ctl[x]) && (x == s || Reaches(w.tree, s, x)))
  }

  lemma TouchesMore(w: World, m: Mgr, m1: Mgr, r: Mgr, s: string, d: string, reg: set<string>)
    requires Fits(w, m) && Fits(w, m1) && Fits(w, r) && s in w.tree && d in w.tree[s]
    requires Touches(w, m, m1, d, reg) && Touches(w, m1, r, s, reg)
    ensures Touches(w, m, r, s, reg)
  {
    ReachesDirectly(w.tree, s, d);
    forall x | x in w.tree && Reaches(w.tree, d, x) ensures Reaches(w.tree, s, x) { ReachesThrough(w.tree, s, d, x); }
  }

  lemma {:induction false} StartTouches(w: World, m: Mgr, s: string, reg: set<string>)
    requires Sound(w) && Fits(w, m) && s in w.tree
    ensures Touches(w, m, StartService(w, m, s, reg), s, reg)
    decreases w.rank[s], 1, 0
  {
    var m1 := m.(stopped := m.stopped - {s});
    if !IsRunning(m.ctl[s]) {
      StartDepsTouch(w, m1, s, w.tree[s], false, reg);
      var (m2, queued) := StartDeps(w, m1, s, w.tree[s], false, reg);
      CallTouches(w, m, m2, s, reg);
    }
  }

  lemma CallTouches(w: World, m: Mgr, m2: Mgr, s: string, reg: set<string>)
    requires Fits(w, m) && Fits(w, m2) && s in w.tree && !IsRunning(m.ctl[s]) && Touches(w, m, m2, s, reg)
    ensures Fits(w, CallStart(m2, s, reg)) && Touches(w, m, CallStart(m2, s, reg), s, reg)
  {
  }

  lemma {:induction false} StartDepsTouch(w: World, m: Mgr, s: string, deps: seq<string>, queued: bool, reg: set<string>)
    requires Sound(w) && Fits(w, m) && s in w.tree && forall d | d in deps :: d in w.tree[s]
    ensures Touches(w, m, StartDeps(w, m, s, deps, queued, reg).0, s, reg)
    decreases w.rank[s], 0, |deps|
  {
    if deps != [] {
      var d := deps[0];
      assert d in deps;
      var wait := !queued && !m.ctl[d].initialized;
      var m1 := if wait then m.(pending := m.pending + {s}) else m;
      if !IsRunning(m1.ctl[d]) { StartTouches(w, m1, d, reg); }
      var m2 := if IsRunning(m1.ctl[d]) then m1 else StartService(w, m1, d, reg);
      StartDepsTouch(w, m2, s, deps[1..], queued || wait, reg);
      TouchesMore(w, m, m2, StartDeps(w, m, s, deps, queued, reg).0, s, d, reg);
    }
  }

  /** What the direct dependencies of `b` other than `a` must be for the report of `a` to decide. */
  ghost predicate OthersReady(w: World, m: Mgr, a: string, deps: seq<string>)
    requires Fits(w, m)
  {
    forall d | d in deps && d in w.tree && d != a ::
      m.ctl[d].initialized && m.ctl[d].state != StateStopped && (IsRunning(m.ctl[d]) || !Reaches(w.tree, d, a))
  }

  lemma {:induction false} NothingToWaitFor(w: World, m: Mgr, b: string, a: string, deps: seq<string>)
    requires Sound(w) && Fits(w, m) && b in w.tree && forall d | d in deps :: d in w.tree[b]
    requires OthersReady(w, m, a, deps) && multiset(deps)[a] <= 1 && (a in deps ==> m.ctl[a].initialized)
    ensures !StartDeps(w, m, b, deps, false, {}).1
    decreases |deps|
  {
    if deps != [] {
      var d := deps[0];
      assert d in deps && deps == [d] + deps[1..];
      var m2 := if IsRunning(m.ctl[d]) then m else StartService(w, m, d, {});
      if !IsRunning(m.ctl[d]) { StartTouches(w, m, d, {}); }
      assert forall x | x in w.tree && x != a && x in deps :: m2.ctl[x] == m.ctl[x];
      NothingToWaitFor(w, m2, b, a, deps[1..]);
    }
  }

  /** `a` is stopped, and nothing but `a` keeps its dependent `b` from being started. */
  ghost predicate OnlyWaitsFor(w: World, m: Mgr, a: string, b: string) {
    && Fits(w, m) && a in w.tree && b in w.tree && multiset(w.tree[b])[a] == 1
    && m.ctl[a].state == StateStopped && !IsRunning(m.ctl[b]) && OthersReady(w, m, a, w.tree[b])
  }

  lemma StillNotReady(w: World, m: Mgr, r: Mgr, b: string, a: string)
    requires Fits(w, m) && Fits(w, r) && Touches(w, m, r, b, {}) && a in w.tree && m.ctl[a].state == StateStopped
    ensures a !in Ready(r)
  {
  }

  lemma StartOverLateReport(w: World, m: Mgr, a: string, b: string)
    requires Sound(w) && OnlyWaitsFor(w, m, a, b) && m.ctl[a].initialized
    ensures !AllInOrder(w, StartService(w, m, b, {}))
  {
    var m1 := m.(stopped := m.stopped - {b});
    NothingToWaitFor(w, m1, b, a, w.tree[b]);
    StartDepsTouch(w, m1, b, w.tree[b], false, {});
    var m2 := StartDeps(w, m1, b, w.tree[b], false, {}).0;
    var r := CallStart(m2, b, {});
    assert r == StartService(w, m, b, {});
    StillNotReady(w, m1, m2, b, a);
    assert r.calls[|r.calls| - 1] == StartCall(b, Ready(m2));
    assert StartCall(b, Ready(m2)) in r.calls && !InOrder(w, StartCall(b, Ready(m2)));
  }

  lemma {:induction false} RetryOfRunning(w: World, m: Mgr, s: string, order: seq<string>, reg: set<string>)
    requires Sound(w) && Fits(w, m) && forall x | x in order :: x in w.tree && (s in w.tree[x] ==> IsRunning(m.ctl[x]))
    ensures var r := Retry(w, m, s, order, reg); r.ctl == m.ctl && r.calls == m.calls
    decreases |order|
  {
    if order != [] {
      var x := order[0];
      assert x in order;
      RetryOfRunning(w, if s in w.tree[x] then StartService(w, m.(pending := m.pending - {x}), x, reg) else m, s, order[1..], reg);
    }
  }

  lemma {:induction false} ListOf(members: set<string>) returns (order: seq<string>)
    ensures Lists(order, members) && (members == {} ==> order == [])
    decreases members
  {
    if members == {} {
      order := [];
    } else {
      var x :| x in members;
      var rest := ListOf(members - {x});
      order := [x] + rest;
    }
  }

  lemma RunCons(w: World, m: Mgr, e: Event, states: seq<Mgr>, events: seq<Event>)
    requires Sound(w) && Fits(w, m) && Possible(w, m, e) && IsRun(w, states, events) && states[0] == Apply(w, m, e)
    ensures IsRun(w, [m] + states, [e] + events)
    ensures ([m] + states)[|events| + 1] == states[|events|]
  {
    var ss, es := [m] + states, [e] + events;
    forall i | 0 <= i < |es|
      ensures Fits(w, ss[i]) && Possible(w, ss[i], es[i]) && ss[i + 1] == Apply(w, ss[i], es[i])
    {
      if i > 0 { assert ss[i] == states[i - 1] && es[i] == events[i - 1]; }
    }
  }

  /** A report of `a` and a request for `b`, after stop requests for those that wait for `a`. */
  ghost predicate ReportThenStart(events: seq<Event>, a: string, b: string) {
    var n := |events|;
    && n >= 2 && events[n - 1] == StartRequest(b, {})
    && (exists order :: events[n - 2] == ReportsInit(a, true, order, {}))
    && forall i | 0 <= i < n - 2 :: events[i].StopRequest?
  }

  /** The services that the report of `a` itself would start. */
  ghost function Waiting(w: World, m: Mgr, a: string): set<string>
    requires Fits(w, m)
  {
    set x | x in m.pending && a in w.tree[x] && !IsRunning(m.ctl[x])
  }

  /** Whenever a stopped service reports success, in whatever state the manager is, a request for a
      service that depends on it, and whose other dependencies are initialized, breaks the order:
      the report sets the flag, so nothing is waited for, and starting the dependency, if it can be
      started, takes the flag away. */
  lemma {:induction false} LateReportBreaksOrder(w: World, m: Mgr, a: string, b: string)
      returns (states: seq<Mgr>, events: seq<Event>)
    requires Sound(w) && OnlyWaitsFor(w, m, a, b) && !m.ctl[a].initialized
    ensures IsRun(w, states, events) && states[0] == m && !AllInOrder(w, states[|events|])
    ensures ReportThenStart(events, a, b)
    ensures m.pending == {} ==> events == [ReportsInit(a, true, [], {}), StartRequest(b, {})]
    decreases m.pending
  {
    if Waiting(w, m, a) == {} {
      states, events := ReportAndStart(w, m, a, b);
    } else {
      var x :| x in Waiting(w, m, a);
      var m1 := m.(pending := m.pending - {x});
      assert Apply(w, m, StopRequest(x)) == m1;
      var states1, events1 := LateReportBreaksOrder(w, m1, a, b);
      RunCons(w, m, StopRequest(x), states1, events1);
      states, events := [m] + states1, [StopRequest(x)] + events1;
      StopFirst(events1, x, a, b);
    }
  }

  lemma StopFirst(events: seq<Event>, x: string, a: string, b: string)
    requires ReportThenStart(events, a, b)
    ensures ReportThenStart([StopRequest(x)] + events, a, b)
  {
    var es := [StopRequest(x)] + events;
    assert es[|es| - 1] == events[|events| - 1] && es[|es| - 2] == events[|events| - 2];
    forall i | 0 <= i < |es| - 2 ensures es[i].StopRequest? { if i > 0 { assert es[i] == events[i - 1]; } }
  }

  lemma LateReport(w: World, m: Mgr, a: string, b: string, order: seq<string>)
    requires Sound(w) && OnlyWaitsFor(w, m, a, b) && !m.ctl[a].initialized && Waiting(w, m, a) == {}
    requires Lists(order, m.pending)
    ensures var r := Apply(w, m, ReportsInit(a, true, order, {}));
            OnlyWaitsFor(w, r, a, b) && r.ctl[a].initialized
  {
    var m1 := SetCtl(m, a, Reported(m.ctl[a], true));
    forall x | x in order ensures x in w.tree && (a in w.tree[x] ==> IsRunning(m1.ctl[x])) {
      assert x !in Waiting(w, m, a);
    }
    RetryOfRunning(w, m1, a, order, {});
  }

  lemma ReportAndStart(w: World, m: Mgr, a: string, b: string) returns (states: seq<Mgr>, events: seq<Event>)
    requires Sound(w) && OnlyWaitsFor(w, m, a, b) && !m.ctl[a].initialized && Waiting(w, m, a) == {}
    ensures IsRun(w, states, events) && states[0] == m && !AllInOrder(w, states[|events|])
    ensures ReportThenStart(events, a, b)
    ensures m.pending == {} ==> events == [ReportsInit(a, true, [], {}), StartRequest(b, {})]
  {
    var order := ListOf(m.pending);
    var report := ReportsInit(a, true, order, {});
    LateReport(w, m, a, b, order);
    var m2 := Apply(w, m, report);
    StartOverLateReport(w, m2, a, b);
    var m3 := Apply(w, m2, StartRequest(b, {}));
    TwoSteps(w, m, report, m2, StartRequest(b, {}), m3);
    states, events := [m, m2, m3], [report, StartRequest(b, {})];
  }

  ghost predicate Step(w: World, m: Mgr, e: Event, r: Mgr)
    requires Sound(w)
  {
    Fits(w, m) && Possible(w, m, e) && r == Apply(w, m, e)
  }

  lemma TwoSteps(w: World, m: Mgr, e: Event, m1: Mgr, e1: Event, m2: Mgr)
    requires Sound(w) && Step(w, m, e, m1) && Step(w, m1, e1, m2)
    ensures IsRun(w, [m, m1, m2], [e, e1])
  {
    var states, events := [m, m1, m2], [e, e1];
    forall i | 0 <= i < 2 ensures Step(w, states[i], events[i], states[i + 1]) {
      if i == 0 { StepAt(w, states, events, 0, m, e, m1); } else { StepAt(w, states, events, 1, m1, e1, m2); }
    }
    StepsMakeRun(w, states, events);
  }

  lemma StepAt(w: World, states: seq<Mgr>, events: seq<Event>, i: nat, m: Mgr, e: Event, r: Mgr)
    requires Sound(w) && i < |events| && |states| == |events| + 1 && Step(w, m, e, r)
    requires states[i] == m && events[i] == e && states[i + 1] == r
    ensures Step(w, states[i], events[i], states[i + 1])
  {
  }

  lemma StepsMakeRun(w: World, states: seq<Mgr>, events: seq<Event>)
    requires Sound(w) && |states| == |events| + 1
    requires forall i | 0 <= i < |events| :: Step(w, states[i], events[i], states[i + 1])
    ensures IsRun(w, states, events)
  {
    forall i | 0 <= i < |events|
      ensures Fits(w, states[i]) && Possible(w, states[i], events[i]) && states[i + 1] == Apply(w, states[i], events[i])
    {
      assert Step(w, states[i], events[i], states[i + 1]);
    }
  }

  /** The service of somebody else comes and goes. */
  lemma ComesAndGoes(w: World, m: Mgr, a: string) returns (taken: Mgr, gone: Mgr)
    requires Sound(w) && Initial(w, m) && a in w.tree
    ensures Step(w, m, NameTaken(a), taken) && taken.ctl[a].hasInterface
    ensures Step(w, taken, NameGone(a, [], {}), gone) && Initial(w, gone)
  {
    taken := Apply(w, m, NameTaken(a));
    NothingStops(w, taken, a);
    gone := Apply(w, taken, NameGone(a, [], {}));
  }

  lemma TwoMore(w: World, m: Mgr, e: Event, m1: Mgr, e1: Event, states: seq<Mgr>, events: seq<Event>)
    requires Sound(w) && IsRun(w, states, events) && Step(w, m, e, m1) && Step(w, m1, e1, states[0])
    ensures IsRun(w, [m] + ([m1] + states), [e] + ([e1] + events))
  {
    RunCons(w, m1, e1, states, events);
    RunCons(w, m, e, [m1] + states, [e1] + events);
  }

  lemma TwoInFront<T>(a: T, b: T, rest: seq<T>)
    ensures |[a] + ([b] + rest)| == |rest| + 2 && ([a] + ([b] + rest))[0] == a && ([a] + ([b] + rest))[1] == b
    ensures forall i | 0 <= i < |rest| :: ([a] + ([b] + rest))[i + 2] == rest[i]
    ensures |rest| == 2 ==> [a] + ([b] + rest) == [a, b, rest[0], rest[1]]
  {
  }

  /** It can happen from the very beginning: the report of such a service arrives after it went. */
  lemma LateReportRun(w: World, m: Mgr, a: string, b: string) returns (states: seq<Mgr>, events: seq<Event>)
    requires Sound(w) && Initial(w, m) && a in w.tree && b in w.tree && w.tree[b] == [a]
    ensures IsRun(w, states, events) && states[0] == m && !AllInOrder(w, states[|events|])
    ensures events == [NameTaken(a), NameGone(a, [], {}), ReportsInit(a, true, [], {}), StartRequest(b, {})]
    ensures states[1] == Apply(w, m, NameTaken(a)) && states[1].ctl[a].hasInterface
  {
    var taken, gone := ComesAndGoes(w, m, a);
    InitiallyWaits(w, gone, a, b);
    var rest, last := LateReportBreaksOrder(w, gone, a, b);
    TwoMore(w, m, NameTaken(a), taken, NameGone(a, [], {}), rest, last);
    states, events := [m] + ([taken] + rest), [NameTaken(a)] + ([NameGone(a, [], {})] + last);
    TwoInFront(m, taken, rest);
    TwoInFront(NameTaken(a), NameGone(a, [], {}), last);
  }

  lemma InitiallyWaits(w: World, m: Mgr, a: string, b: string)
    requires Sound(w) && Initial(w, m) && a in w.tree && b in w.tree && w.tree[b] == [a]
    ensures OnlyWaitsFor(w, m, a, b) && !m.ctl[a].initialized
  {
    assert multiset(w.tree[b])[a] == 1;
  }

  /** Nothing that depends on `a` runs, and nothing waits to be stopped. */
  lemma NothingStops(w: World, m: Mgr, a: string)
    requires Sound(w) && Fits(w, m) && forall x | x in w.tree && a in w.tree[x] :: !IsRunning(m.ctl[x])
    ensures ServiceStopped(w, m, a, []) == m
  {
    var deps := RevDeps(w.tree, w.keys, a);
    NoneRuns(w, m, deps);
  }

  lemma {:induction false} NoneRuns(w: World, m: Mgr, deps: seq<string>)
    requires Sound(w) && Fits(w, m) && forall d | d in deps :: d in w.tree && !IsRunning(m.ctl[d])
    ensures StopDependents(w, m, deps) == m
    decreases |deps|
  {
    if deps != [] {
      assert deps[0] in deps;
      NoneRuns(w, m, deps[1..]);
    }
  }
}
