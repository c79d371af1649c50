/** Services that go away by themselves, over whole runs: an attached one whose D-Bus name
    disappears, and one whose process crashes and is launched again
    (server/servicecontroller.cpp:262-316, server/servicemanager.cpp:240-411). */
module ServiceLosses {
  import opened Dependencies
  import opened Controllers
  import opened ServiceManager
  import opened ServiceOrdering

  /** `s` was told to stop between the two states. */
  ghost predicate Told(m: Mgr, r: Mgr, s: string) {
    exists i :: |m.calls| <= i < |r.calls| && r.calls[i].StopCall? && r.calls[i].name == s
  }

  lemma ToldMeanwhile(m: Mgr, m1: Mgr, r: Mgr, s: string)
    requires m.calls <= m1.calls && m1.calls <= r.calls && (Told(m, m1, s) || Told(m1, r, s))
    ensures Told(m, r, s)
  {
    if Told(m, m1, s) {
      var i :| |m.calls| <= i < |m1.calls| && m1.calls[i].StopCall? && m1.calls[i].name == s;
      assert r.calls[i] == m1.calls[i];
    }
  }

  // ----- what a start leaves alone -----

  predicate StartLeaves(m: Mgr, r: Mgr, s: string)
    requires s in m.ctl && s in r.ctl
  {
    m.calls <= r.calls && (IsRunning(m.ctl[s]) || m.ctl[s].state != StateStopped ==> r.ctl[s] == m.ctl[s])
  }

  lemma {:induction false} StartServiceLeaves(w: World, m: Mgr, x: string, reg: set<string>, s: string)
    requires Sound(w) && Fits(w, m) && x in w.tree && s in w.tree
    ensures StartLeaves(m, StartService(w, m, x, reg), s)
    decreases w.rank[x], 1, 0
  {
    if !IsRunning(m.ctl[x]) { StartDepsLeave(w, m.(stopped := m.stopped - {x}), x, w.tree[x], false, reg, s); }
  }

  lemma {:induction false} StartDepsLeave(w: World, m: Mgr, x: string, deps: seq<string>, queued: bool,
                                          reg: set<string>, s: string)
    requires Sound(w) && Fits(w, m) && x in w.tree && s in w.tree && forall d | d in deps :: d in w.tree[x]
    ensures StartLeaves(m, StartDeps(w, m, x, deps, queued, reg).0, s)
    decreases w.rank[x], 0, |deps|
  {
    if deps != [] {
      var d := deps[0];
      assert d in deps;
      var wait := !queued && !m.ctl[d].initialized;
      var m1 := if wait then m.(pending := m.pending + {x}) else m;
      if !IsRunning(m1.ctl[d]) { StartServiceLeaves(w, m1, d, reg, s); }
      var m2 := if IsRunning(m1.ctl[d]) then m1 else StartService(w, m1, d, reg);
      StartDepsLeave(w, m2, x, deps[1..], queued || wait, reg, s);
    }
  }

  lemma {:induction false} RetryLeaves(w: World, m: Mgr, x: string, order: seq<string>, reg: set<string>, s: string)
    requires Sound(w) && Fits(w, m) && s in w.tree && forall y | y in order :: y in w.tree
    ensures StartLeaves(m, Retry(w, m, x, order, reg), s)
    decreases |order|
  {
    if order != [] {
      var y := order[0];
      assert y in order;
      var m0 := m.(pending := m.pending - {y});
      if x in w.tree[y] { StartServiceLeaves(w, m0, y, reg, s); }
      RetryLeaves(w, if x in w.tree[y] then StartService(w, m0, y, reg) else m, x, order[1..], reg, s);
    }
  }

  lemma {:induction false} StartEachLeaves(w: World, m: Mgr, names: seq<string>, reg: set<string>, s: string)
    requires Sound(w) && Fits(w, m) && s in w.tree && forall y | y in names :: y in w.tree
    ensures StartLeaves(m, StartEach(w, m, names, reg), s)
    decreases |names|
  {
    if names != [] {
      assert names[0] in names;
      StartServiceLeaves(w, m, names[0], reg, s);
      StartEachLeaves(w, StartService(w, m, names[0], reg), names[1..], reg, s);
    }
  }

  // ----- what a stop leaves alone -----

  /** `s` is as it was, or it ran and was told to stop; `below` says which stops can have told it. */
  ghost predicate StopLeaves(m: Mgr, r: Mgr, s: string, below: bool)
    requires s in m.ctl && s in r.ctl
  {
    && m.calls <= r.calls
    && (r.ctl[s] == m.ctl[s] || (below && IsRunning(m.ctl[s]) && r.ctl[s] == Stop(m.ctl[s]) && Told(m, r, s)))
  }

  lemma StopLeavesTwice(m: Mgr, m1: Mgr, r: Mgr, s: string, below: bool)
    requires s in m.ctl && s in m1.ctl && s in r.ctl && StopLeaves(m, m1, s, below) && StopLeaves(m1, r, s, below)
    ensures StopLeaves(m, r, s, below)
  {
    if Told(m, m1, s) || Told(m1, r, s) { ToldMeanwhile(m, m1, r, s); }
  }

  /** Stopping `x` can tell `x` and what depends on it. */
  ghost predicate Below(w: World, s: string, x: string) {
    s == x || Reaches(w.tree, s, x)
  }

  lemma BelowDependent(w: World, s: string, d: string, x: string)
    requires Below(w, s, d) && d in w.tree && x in w.tree[d]
    ensures Below(w, s, x)
  {
    ReachesDirectly(w.tree, d, x);
    if s != d { ReachesThrough(w.tree, s, d, x); }
  }

  lemma {:induction false} StopServiceLeaves(w: World, m: Mgr, x: string, s: string)
    requires Sound(w) && Fits(w, m) && x in w.tree && s in w.tree
    ensures StopLeaves(m, StopService(w, m, x), s, Below(w, s, x))
    decreases w.top - w.rank[x], 1, 0
  {
    if IsRunning(m.ctl[x]) {
      var m1 := m.(pending := m.pending - {x});
      var deps := RevDeps(w.tree, w.keys, x);
      StopRevDepsLeave(w, m1, x, deps, false, s);
      var (m2, waiting) := StopRevDeps(w, m1, x, deps, false);
      if !waiting {
        StopRevDepsIdle(w, m1, x, deps, false);
        var r := CallStop(m2.(stopped := m2.stopped - {x}), x);
        assert r.calls[|r.calls| - 1] == StopCall(x, Running(m2));
      }
    }
  }

  /** If nothing is waited for, nothing was done. */
  lemma {:induction false} StopRevDepsIdle(w: World, m: Mgr, x: string, deps: seq<string>, waiting: bool)
    requires Sound(w) && Fits(w, m) && x in w.tree && forall d | d in deps :: d in w.tree && x in w.tree[d]
    ensures var (r, late) := StopRevDeps(w, m, x, deps, waiting); (waiting ==> late) && (!late ==> r == m)
    decreases |deps|
  {
    if deps != [] {
      var d := deps[0];
      assert d in deps;
      if IsRunning(m.ctl[d]) {
        var m1 := StopService(w, m.(stopped := m.stopped + {x}), d);
        StopRevDepsIdle(w, m1.(pending := m1.pending + {d}), x, deps[1..], true);
      } else {
        StopRevDepsIdle(w, m, x, deps[1..], waiting);
      }
    }
  }

  lemma {:induction false} StopRevDepsLeave(w: World, m: Mgr, x: string, deps: seq<string>, waiting: bool, s: string)
    requires Sound(w) && Fits(w, m) && x in w.tree && s in w.tree && forall d | d in deps :: d in w.tree && x in w.tree[d]
    ensures StopLeaves(m, StopRevDeps(w, m, x, deps, waiting).0, s, Below(w, s, x))
    decreases w.top - w.rank[x], 0, |deps|
  {
    if deps != [] {
      var d := deps[0];
      assert d in deps;
      if IsRunning(m.ctl[d]) {
        var m0 := m.(stopped := m.stopped + {x});
        StopServiceLeaves(w, m0, d, s);
        if Below(w, s, d) { BelowDependent(w, s, d, x); }
        var m1 := StopService(w, m0, d);
        var m2 := m1.(pending := m1.pending + {d});
        StopRevDepsLeave(w, m2, x, deps[1..], true, s);
        StopLeavesTwice(m, m2, StopRevDeps(w, m, x, deps, waiting).0, s, Below(w, s, x));
      } else {
        StopRevDepsLeave(w, m, x, deps[1..], waiting, s);
      }
    }
  }

  lemma {:induction false} StopWaitingLeaves(w: World, m: Mgr, order: seq<string>, s: string, below: bool)
    requires Sound(w) && Fits(w, m) && s in w.tree && forall x | x in order :: x in w.tree && (Below(w, s, x) ==> below)
    ensures StopLeaves(m, StopWaiting(w, m, order), s, below)
    decreases |order|
  {
    if order != [] {
      var x := order[0];
      assert x in order;
      var m0 := m.(stopped := m.stopped - {x});
      StopServiceLeaves(w, m0, x, s);
      var m1 := StopService(w, m0, x);
      StopWaitingLeaves(w, m1, order[1..], s, below);
      StopLeavesTwice(m, m1, StopWaiting(w, m, order), s, below);
    }
  }

  lemma {:induction false} StopDependentsLeave(w: World, m: Mgr, deps: seq<string>, s: string, below: bool)
    requires Sound(w) && Fits(w, m) && s in w.tree && forall x | x in deps :: x in w.tree && (Below(w, s, x) ==> below)
    ensures StopLeaves(m, StopDependents(w, m, deps), s, below)
    decreases |deps|
  {
    if deps != [] {
      var d := deps[0];
      assert d in deps;
      if IsRunning(m.ctl[d]) {
        StopServiceLeaves(w, m, d, s);
        var m1 := StopService(w, m, d);
        var m2 := m1.(pending := m1.pending + {d});
        StopDependentsLeave(w, m2, deps[1..], s, below);
        StopLeavesTwice(m, m2, StopDependents(w, m, deps), s, below);
      } else {
        StopDependentsLeave(w, m, deps[1..], s, below);
      }
    }
  }

  lemma {:induction false} StopEachLeaves(w: World, m: Mgr, names: seq<string>, s: string)
    requires Sound(w) && Fits(w, m) && s in w.tree && forall x | x in names :: x in w.tree
    ensures StopLeaves(m, StopEach(w, m, names), s, true)
    decreases |names|
  {
    if names != [] {
      assert names[0] in names;
      StopServiceLeaves(w, m, names[0], s);
      var m1 := StopService(w, m, names[0]);
      StopEachLeaves(w, m1, names[1..], s);
      StopLeavesTwice(m, m1, StopEach(w, m, names), s, true);
    }
  }

  lemma {:induction false} RankFalls(w: World, p: seq<string>)
    requires Sound(w) && IsPath(w.tree, p) && |p| >= 2
    ensures p[0] in w.tree && p[|p| - 1] in w.tree && w.rank[p[|p| - 1]] < w.rank[p[0]]
    decreases |p|
  {
    assert p[1] in Deps(w.tree, p[0]);
    if |p| > 2 {
      PathTail(w.tree, p);
      RankFalls(w, p[1..]);
    }
  }

  lemma NotBelowDependent(w: World, s: string, d: string)
    requires Sound(w) && d in w.tree && s in w.tree[d]
    ensures !Below(w, s, d)
  {
    if Below(w, s, d) {
      BelowDependent(w, s, d, s);
      ReachesDirectly(w.tree, d, s);
      if s != d { ReachesThrough(w.tree, s, d, s); }
      var p :| Joins(w.tree, p, s, s);
      RankFalls(w, p);
    }
  }

  /** What serviceStopped of `x` does to `s`: nothing, unless `s` is, or depends on, `x` or a
      service that waits to be stopped. */
  lemma ServiceStoppedLeaves(w: World, m: Mgr, x: string, order: seq<string>, s: string)
    requires Sound(w) && Fits(w, m) && s in w.tree && x in w.tree && forall y | y in order :: y in w.tree
    ensures StopLeaves(m, ServiceStopped(w, m, x, order), s,
                       (s != x && Below(w, s, x)) || exists y | y in order :: Below(w, s, y))
  {
    var below := (s != x && Below(w, s, x)) || exists y | y in order :: Below(w, s, y);
    StopWaitingLeaves(w, m, order, s, below);
    var m1 := StopWaiting(w, m, order);
    var deps := RevDeps(w.tree, w.keys, x);
    forall d | d in deps ensures d in w.tree && (Below(w, s, d) ==> below) {
      if Below(w, s, d) {
        BelowDependent(w, s, d, x);
        if s == x { NotBelowDependent(w, s, d); }
      }
    }
    StopDependentsLeave(w, m1, deps, s, below);
    StopLeavesTwice(m, m1, ServiceStopped(w, m, x, order), s, below);
  }

  // ----- what one event leaves alone -----

  /** Attached, asked for, and believed to run. */
  predicate Adopted(c: Ctl) {
    c.attached && c.started && c.state == StateRunning
  }

  /** A process that the server does not know it wants. */
  predicate Forgotten(c: Ctl) {
    !c.attached && !c.started && !c.hasInterface && c.hasProcess && c.processRunning
  }

  /** A process that is not there, although the controller was started. */
  predicate Stuck(c: Ctl) {
    c.state != StateStopped && !c.attached && c.hasProcess && !c.processRunning
  }

  predicate EndsProcess(e: Event, s: string) {
    (e.ProcessFinished? || e.ProcessFailed?) && e.name == s
  }

  predicate BringsBack(e: Event, s: string) {
    (e.NameTaken? || e.ProcessRelaunched?) && e.name == s
  }

  ghost predicate Keeps(m: Mgr, r: Mgr, e: Event, s: string)
    requires s in m.ctl && s in r.ctl
  {
    && m.calls <= r.calls
    && (Adopted(m.ctl[s]) && !(e.ProcessFinished? && e.name == s) ==> Adopted(r.ctl[s]) || Told(m, r, s))
    && (Forgotten(m.ctl[s]) && !EndsProcess(e, s) ==> Forgotten(r.ctl[s]))
    && (Stuck(m.ctl[s]) && !BringsBack(e, s) ==> Stuck(r.ctl[s]))
  }

  lemma EventKeeps(w: World, m: Mgr, e: Event, s: string)
    requires Sound(w) && Fits(w, m) && Possible(w, m, e) && s in w.tree
    ensures Keeps(m, Apply(w, m, e), e, s)
  {
    if e.StartRequest? || e.StopRequest? || e.StartAllRequest? || e.StopAllRequest? {
      RequestKeeps(w, m, e, s);
    } else if e.ReportsInit? {
      ReportKeeps(w, m, e, s);
    } else if e.ProcessFinished? {
      FinishedKeeps(w, m, e, s);
    } else if e.NameGone? {
      NameGoneKeeps(w, m, e, s);
    }
  }

  lemma ReportKeeps(w: World, m: Mgr, e: Event, s: string)
    requires Sound(w) && Fits(w, m) && Possible(w, m, e) && s in w.tree && e.ReportsInit?
    ensures Keeps(m, Apply(w, m, e), e, s)
  {
    RetryLeaves(w, SetCtl(m, e.name, Reported(m.ctl[e.name], e.success)), e.name, e.order, e.reg, s);
  }

  lemma FinishedKeeps(w: World, m: Mgr, e: Event, s: string)
    requires Sound(w) && Fits(w, m) && Possible(w, m, e) && s in w.tree && e.ProcessFinished?
    ensures Keeps(m, Apply(w, m, e), e, s)
  {
    ServiceStoppedLeaves(w, SetCtl(m, e.name, Finished(m.ctl[e.name])), e.name, e.order, s);
  }

  lemma NameGoneKeeps(w: World, m: Mgr, e: Event, s: string)
    requires Sound(w) && Fits(w, m) && Possible(w, m, e) && s in w.tree && e.NameGone?
    ensures Keeps(m, Apply(w, m, e), e, s)
  {
    if m.ctl[e.name].attached {
      ServiceStoppedLeaves(w, m, e.name, e.order, s);
      var m1 := ServiceStopped(w, m, e.name, e.order);
      assert Adopted(m.ctl[s]) ==> Adopted(m1.ctl[s]) || Told(m, m1, s);
      assert Adopted(m1.ctl[s]) ==> AfterUnregistered(m1.ctl[s], s in e.reg) == m1.ctl[s];
    }
  }

  lemma RequestKeeps(w: World, m: Mgr, e: Event, s: string)
    requires Sound(w) && Fits(w, m) && Possible(w, m, e) && s in w.tree
    requires e.StartRequest? || e.StopRequest? || e.StartAllRequest? || e.StopAllRequest?
    ensures Keeps(m, Apply(w, m, e), e, s)
  {
    match e
    case StartRequest(name, reg) => if name in w.tree { StartServiceLeaves(w, m, name, reg, s); }
    case StartAllRequest(names, reg) => StartEachLeaves(w, m, names, reg, s);
    case StopRequest(name) => if name in w.tree { StopServiceLeaves(w, m, name, s); }
    case StopAllRequest(names) => StopEachLeaves(w, m.(pending := {}), names, s);
  }

  // ----- an attached service that leaves the bus -----

  lemma {:induction false} RunKeepsAdopted(w: World, states: seq<Mgr>, events: seq<Event>, s: string)
    requires Sound(w) && IsRun(w, states, events) && s in w.tree && Fits(w, states[0]) && Adopted(states[0].ctl[s])
    requires forall e | e in events :: !(e.ProcessFinished? && e.name == s)
    ensures var m, r := states[0], states[|events|];
            Fits(w, r) && m.calls <= r.calls && (Adopted(r.ctl[s]) || Told(m, r, s))
    decreases |events|
  {
    if events != [] {
      var n := |events| - 1;
      assert IsRun(w, states[..|events|], events[..n]);
      RunKeepsAdopted(w, states[..|events|], events[..n], s);
      var m, m1, r := states[0], states[n], states[n + 1];
      assert events[n] in events;
      EventKeeps(w, m1, events[n], s);
      if Told(m, m1, s) || Told(m1, r, s) { ToldMeanwhile(m, m1, r, s); }
    }
  }

  lemma RunFrom(w: World, states: seq<Mgr>, events: seq<Event>, k: nat)
    requires Sound(w) && IsRun(w, states, events) && k <= |events|
    ensures IsRun(w, states[k..], events[k..])
  {
    var ss, es := states[k..], events[k..];
    forall i | 0 <= i < |es|
      ensures Fits(w, ss[i]) && Possible(w, ss[i], es[i]) && ss[i + 1] == Apply(w, ss[i], es[i])
    {
      assert ss[i] == states[i + k] && es[i] == events[i + k];
    }
  }

  /** An attached service that was asked for and leaves the bus is not restarted, although the slot
      calls start() for it: nothing about it changes, and whatever happens after that, it counts as
      attached and running, so that every start() is void, until it is told to stop. */
  lemma LostServiceIsNotRestarted(w: World, states: seq<Mgr>, events: seq<Event>, s: string)
    requires Sound(w) && IsRun(w, states, events) && s in w.tree && Fits(w, states[0]) && Adopted(states[0].ctl[s])
    requires events != [] && events[0].NameGone? && events[0].name == s
    requires forall x | x in states[0].stopped :: !Below(w, s, x)
    requires forall e | e in events :: !(e.ProcessFinished? && e.name == s)
    ensures states[1].ctl[s] == states[0].ctl[s]
    ensures var r := states[|events|];
            Fits(w, r) && (Told(states[1], r, s) || forall registered :: Adopted(r.ctl[s]) && Start(r.ctl[s], registered) == r.ctl[s])
  {
    ServiceStoppedLeaves(w, states[0], s, events[0].order, s);
    RunFrom(w, states, events, 1);
    RunKeepsAdopted(w, states[1..], events[1..], s);
  }

  // ----- a process that crashes and is launched again -----

  lemma RelaunchForgets(w: World, m: Mgr, s: string, order: seq<string>)
    requires Sound(w) && Fits(w, m) && AllKept(m) && Possible(w, m, ProcessFinished(s, order))
    ensures var m1 := Apply(w, m, ProcessFinished(s, order));
            Possible(w, m1, ProcessRelaunched(s)) && Forgotten(Apply(w, m1, ProcessRelaunched(s)).ctl[s])
  {
    ServiceStoppedLeaves(w, SetCtl(m, s, Finished(m.ctl[s])), s, order, s);
  }

  lemma {:induction false} RunKeepsForgotten(w: World, states: seq<Mgr>, events: seq<Event>, s: string)
    requires Sound(w) && IsRun(w, states, events) && s in w.tree && Fits(w, states[0]) && Forgotten(states[0].ctl[s])
    requires forall e | e in events :: !EndsProcess(e, s)
    ensures Fits(w, states[|events|]) && Forgotten(states[|events|].ctl[s])
    decreases |events|
  {
    if events != [] {
      var n := |events| - 1;
      assert IsRun(w, states[..|events|], events[..n]);
      RunKeepsForgotten(w, states[..|events|], events[..n], s);
      assert events[n] in events;
      EventKeeps(w, states[n], events[n], s);
    }
  }

  /** A service that crashed and was launched again runs without the server wanting it: whatever
      happens after that, start requests and stop requests included, it has no interface over which
      it could report until that process ends too. */
  lemma RelaunchedServiceIsMute(w: World, states: seq<Mgr>, events: seq<Event>, s: string)
    requires Sound(w) && IsRun(w, states, events) && s in w.tree && Fits(w, states[0]) && AllKept(states[0])
    requires |events| >= 2 && events[0].ProcessFinished? && events[0].name == s && events[1] == ProcessRelaunched(s)
    requires forall e | e in events[2..] :: !EndsProcess(e, s)
    ensures var r := states[|events|];
            Fits(w, r) && IsRunning(r.ctl[s]) && !r.ctl[s].hasInterface && WithInterface(r.ctl[s]) == r.ctl[s]
  {
    RelaunchForgets(w, states[0], s, events[0].order);
    assert states[1] == Apply(w, states[0], events[0]) && states[2] == Apply(w, states[1], events[1]);
    assert Forgotten(states[2].ctl[s]);
    RunFrom(w, states, events, 2);
    RunKeepsForgotten(w, states[2..], events[2..], s);
  }

  // ----- a process that cannot be started -----

  lemma {:induction false} RunKeepsStuck(w: World, states: seq<Mgr>, events: seq<Event>, s: string)
    requires Sound(w) && IsRun(w, states, events) && s in w.tree && Fits(w, states[0]) && Stuck(states[0].ctl[s])
    requires forall e | e in events :: !BringsBack(e, s)
    ensures Fits(w, states[|events|]) && Stuck(states[|events|].ctl[s])
    decreases |events|
  {
    if events != [] {
      var n := |events| - 1;
      assert IsRun(w, states[..|events|], events[..n]);
      RunKeepsStuck(w, states[..|events|], events[..n], s);
      assert events[n] in events;
      EventKeeps(w, states[n], events[n], s);
    }
  }

  /** A service whose process could not be started, so that it never ends either, is not reset. Whatever
      is requested after that, it does not run, and every start() is void, unless somebody else provides
      the service. Only a crash makes the process be launched again. */
  lemma FailedServiceIsStuck(w: World, states: seq<Mgr>, events: seq<Event>, s: string)
    requires Sound(w) && IsRun(w, states, events) && s in w.tree && Fits(w, states[0]) && AllKept(states[0])
    requires events != [] && events[0] == ProcessFailed(s)
    requires states[0].ctl[s].state != StateStopped && !states[0].ctl[s].attached
    requires forall e | e in events[1..] :: !BringsBack(e, s)
    ensures var r := states[|events|];
            Fits(w, r) && !IsRunning(r.ctl[s]) && forall registered :: Start(r.ctl[s], registered) == r.ctl[s]
  {
    assert Stuck(states[1].ctl[s]);
    RunFrom(w, states, events, 1);
    RunKeepsStuck(w, states[1..], events[1..], s);
  }

  /** An interface that was lost is made again exactly if the service is attached or was asked for. */
  lemma LostInterfaceIsMadeAgain(w: World, m: Mgr, s: string)
    requires Sound(w) && Fits(w, m) && s in w.tree
    ensures var m1 := Apply(w, m, InterfaceLost(s));
            var c, c1, c2 := m.ctl[s], m1.ctl[s], Apply(w, m1, InterfaceMade(s)).ctl[s];
            !c1.hasInterface && c2 == c.(hasInterface := c.attached || c.started)
  {
  }

  // ----- an attached service that others wait for -----

  /** Nothing that depends on `x` runs. */
  predicate NoDependentRuns(w: World, m: Mgr, x: string)
    requires Fits(w, m)
  {
    forall d | d in w.tree && x in w.tree[d] :: !IsRunning(m.ctl[d])
  }

  /** The state after the dependents of `a` were told to stop, `b` being the only one that ran. */
  ghost predicate OnlyTold(m: Mgr, r: Mgr, a: string, b: string)
    requires b in m.ctl
  {
    r.ctl == m.ctl[b := Stop(m.ctl[b])] && a in r.stopped
  }

  lemma {:induction false} StopsOnly(w: World, m: Mgr, a: string, b: string, deps: seq<string>, waiting: bool)
    requires Sound(w) && Fits(w, m) && a in w.tree && b in w.tree && a in w.tree[b] && a != b
    requires forall d | d in deps :: d in w.tree && a in w.tree[d] && (IsRunning(m.ctl[d]) ==> d == b)
    requires NoDependentRuns(w, m, b) && m.ctl[b].state == StateRunning && !m.ctl[b].processRunning
    ensures var (r, late) := StopRevDeps(w, m, a, deps, waiting);
            if b in deps && IsRunning(m.ctl[b]) then late && OnlyTold(m, r, a, b) else r == m && late == waiting
    decreases |deps|
  {
    if deps != [] {
      var d := deps[0];
      assert d in deps;
      if IsRunning(m.ctl[d]) {
        var m0 := m.(stopped := m.stopped + {a});
        StopsAlone(w, m0, b);
        var m1 := StopService(w, m0, b);
        NothingMore(w, m1.(pending := m1.pending + {b}), a, deps[1..], true);
      } else {
        StopsOnly(w, m, a, b, deps[1..], waiting);
      }
    }
  }

  lemma {:induction false} NothingMore(w: World, m: Mgr, a: string, deps: seq<string>, waiting: bool)
    requires Sound(w) && Fits(w, m) && a in w.tree && forall d | d in deps :: d in w.tree && a in w.tree[d] && !IsRunning(m.ctl[d])
    ensures StopRevDeps(w, m, a, deps, waiting) == (m, waiting)
    decreases |deps|
  {
    if deps != [] {
      assert deps[0] in deps;
      NothingMore(w, m, a, deps[1..], waiting);
    }
  }

  lemma StopsAlone(w: World, m: Mgr, b: string)
    requires Sound(w) && Fits(w, m) && b in w.tree && IsRunning(m.ctl[b]) && NoDependentRuns(w, m, b)
    ensures var r := StopService(w, m, b); r.ctl == m.ctl[b := Stop(m.ctl[b])] && r.stopped == m.stopped - {b}
  {
    NothingMore(w, m.(pending := m.pending - {b}), b, RevDeps(w.tree, w.keys, b), false);
  }

  lemma StopReachesAttached(w: World, m: Mgr, a: string, b: string)
    requires Sound(w) && Fits(w, m) && a in w.tree && b in w.tree && a in w.tree[b] && a != b && IsRunning(m.ctl[a])
    requires m.ctl[b].attached && m.ctl[b].state == StateRunning && !m.ctl[b].processRunning
    requires NoDependentRuns(w, m, b) && forall d | d in w.tree && a in w.tree[d] && d != b :: !IsRunning(m.ctl[d])
    ensures OnlyTold(m, StopService(w, m, a), a, b)
  {
    StopsOnly(w, m.(pending := m.pending - {a}), a, b, RevDeps(w.tree, w.keys, a), false);
  }

  lemma ToldAttachedIsDown(w: World, m: Mgr, r: Mgr, a: string, b: string)
    requires Fits(w, m) && Fits(w, r) && a in w.tree && b in w.tree && a != b && OnlyTold(m, r, a, b)
    requires m.ctl[b].attached && m.ctl[b].state == StateRunning && !m.ctl[b].processRunning
    requires forall d | d in w.tree && a in w.tree[d] && d != b :: !IsRunning(m.ctl[d])
    ensures NoDependentRuns(w, r, a) && r.ctl[a] == m.ctl[a] && !r.ctl[b].attached
  {
  }

  /** Stopping a service with an attached dependent never gets past that dependent: telling it to
      stop ends its being attached, so it counts as down at once, but nobody is told, and when it
      leaves the bus nobody is told either. The service runs on and waits, with nothing left to
      wait for. */
  lemma AttachedDependentIsWaitedForInVain(w: World, m: Mgr, a: string, b: string)
    requires Sound(w) && Fits(w, m) && a in w.tree && b in w.tree && a in w.tree[b] && IsRunning(m.ctl[a])
    requires m.ctl[b].attached && m.ctl[b].state == StateRunning && !m.ctl[b].processRunning
    requires NoDependentRuns(w, m, b) && forall d | d in w.tree && a in w.tree[d] && d != b :: !IsRunning(m.ctl[d])
    ensures var r := Apply(w, m, StopRequest(a));
            && a in r.stopped && IsRunning(r.ctl[a]) && NoDependentRuns(w, r, a)
            && forall order, reg | Possible(w, r, NameGone(b, order, reg)) :: Apply(w, r, NameGone(b, order, reg)) == r
  {
    if a == b { NotBelowDependent(w, b, a); }
    StopReachesAttached(w, m, a, b);
    ToldAttachedIsDown(w, m, StopService(w, m, a), a, b);
  }
}
