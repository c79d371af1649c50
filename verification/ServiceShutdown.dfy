/** Shutdown always makes progress (server/servicemanager.cpp:270-295, 317-346, 380-388), for
    services the server started itself. */
module ServiceShutdown {
  import opened Controllers
  import opened ServiceManager

  /** The server started every running service itself, and knows of every one that went down. */
  predicate OwnProcess(c: Ctl) {
    && WellKept(c) && !c.attached && (IsRunning(c) <==> c.state != StateStopped)
    && (c.state == StateStopping ==> !c.started)
  }

  predicate AllOwn(w: World, m: Mgr) {
    Fits(w, m) && forall s | s in w.tree :: OwnProcess(m.ctl[s])
  }

  predicate HasRunningDependent(w: World, m: Mgr, s: string)
    requires Fits(w, m)
  {
    exists x | x in w.tree :: s in w.tree[x] && IsRunning(m.ctl[x])
  }

  predicate Held(w: World, m: Mgr, s: string)
    requires Fits(w, m) && s in w.tree
  {
    IsRunning(m.ctl[s]) && HasRunningDependent(w, m, s)
  }

  /** Any other service, somebody else's perhaps, has a running dependent and cannot be stopped yet. */
  predicate Steady(w: World, m: Mgr) {
    Fits(w, m) && forall s | s in w.tree :: OwnProcess(m.ctl[s]) || HasRunningDependent(w, m, s)
  }

  /** The services that wait to be stopped run and have a running dependent, but for `exempt`. */
  predicate AllHeld(w: World, m: Mgr, exempt: set<string>)
    requires Fits(w, m)
  {
    forall s | s in m.stopped && s !in exempt :: Held(w, m, s)
  }

  /** A running service was told to stop, which leaves it not started, or waits to be stopped for a
      running dependent. */
  predicate Handled(w: World, m: Mgr, s: string)
    requires Fits(w, m) && s in w.tree
  {
    IsRunning(m.ctl[s]) ==> !m.ctl[s].started || (s in m.stopped && HasRunningDependent(w, m, s))
  }

  predicate AllHandled(w: World, m: Mgr)
    requires Fits(w, m)
  {
    forall s | s in w.tree :: Handled(w, m, s)
  }

  /** The same services run, and those that the server started itself are still in order. */
  predicate SameRunning(m: Mgr, r: Mgr) {
    && r.ctl.Keys == m.ctl.Keys
    && forall s | s in m.ctl ::
         IsRunning(r.ctl[s]) == IsRunning(m.ctl[s]) && (OwnProcess(m.ctl[s]) ==> OwnProcess(r.ctl[s]))
  }

  lemma SteadyKept(w: World, m: Mgr, r: Mgr)
    requires Steady(w, m) && Fits(w, r) && SameRunning(m, r)
    ensures Steady(w, r) && (AllOwn(w, m) ==> AllOwn(w, r))
  {
    forall s | s in w.tree ensures HasRunningDependent(w, r, s) == HasRunningDependent(w, m, s) {
      SameDependents(w, m, r, s);
    }
  }

  lemma SameDependents(w: World, m: Mgr, r: Mgr, s: string)
    requires Fits(w, m) && Fits(w, r) && SameRunning(m, r)
    ensures HasRunningDependent(w, r, s) == HasRunningDependent(w, m, s)
  {
    if x :| x in w.tree && s in w.tree[x] && IsRunning(m.ctl[x]) { assert IsRunning(r.ctl[x]); }
  }

  /** What was handled in `m`, and `extra`, is handled in `r`. */
  predicate HandledMore(w: World, m: Mgr, r: Mgr, extra: set<string>)
    requires Fits(w, m) && Fits(w, r)
  {
    forall s | s in w.tree && (Handled(w, m, s) || s in extra) :: Handled(w, r, s)
  }

  // ----- stopping one service -----

  lemma {:induction false} StopHandles(w: World, m: Mgr, s: string, exempt: set<string>)
    requires Sound(w) && Steady(w, m) && s in w.tree && AllHeld(w, m, exempt)
    ensures var r := StopService(w, m, s);
            Steady(w, r) && AllHeld(w, r, exempt) && SameRunning(m, r) && HandledMore(w, m, r, {s})
    decreases w.top - w.rank[s], 1, 0
  {
    var m1 := m.(pending := m.pending - {s});
    PendingIsNothing(w, m, m1, exempt);
    if IsRunning(m.ctl[s]) {
      var deps := RevDeps(w.tree, w.keys, s);
      StopRevDepsHandles(w, m1, s, deps, false, exempt);
      NoneRuns(w, m1, s, deps, false);
      var (m2, waiting) := StopRevDeps(w, m1, s, deps, false);
      if waiting {
        assert Handled(w, m2, s) by { SameDependents(w, m1, m2, s); }
      } else {
        CallStopHandles(w, m1, s, exempt);
      }
    }
  }

  lemma PendingIsNothing(w: World, m: Mgr, r: Mgr, exempt: set<string>)
    requires Steady(w, m) && AllHeld(w, m, exempt) && Fits(w, r) && r.ctl == m.ctl && r.stopped == m.stopped
    ensures Steady(w, r) && AllHeld(w, r, exempt) && SameRunning(m, r) && HandledMore(w, m, r, {})
  {
    forall s | s in w.tree ensures HasRunningDependent(w, r, s) == HasRunningDependent(w, m, s) {
      SameDependents(w, m, r, s);
    }
    forall s | s in r.stopped && s !in exempt ensures Held(w, r, s) { assert Held(w, m, s); }
  }

  lemma CallStopHandles(w: World, m: Mgr, s: string, exempt: set<string>)
    requires Sound(w) && Steady(w, m) && s in w.tree && AllHeld(w, m, exempt) && IsRunning(m.ctl[s])
    requires !HasRunningDependent(w, m, s)
    ensures var r := CallStop(m.(stopped := m.stopped - {s}), s);
            Steady(w, r) && AllHeld(w, r, exempt) && SameRunning(m, r) && HandledMore(w, m, r, {s})
  {
    var r := CallStop(m.(stopped := m.stopped - {s}), s);
    CalledStop(w, m, s);
    forall x | x in w.tree ensures HasRunningDependent(w, r, x) == HasRunningDependent(w, m, x) {
      SameDependents(w, m, r, x);
    }
    forall x | x in r.stopped && x !in exempt ensures Held(w, r, x) { assert Held(w, m, x); }
    forall x | x in w.tree && (Handled(w, m, x) || x == s) ensures Handled(w, r, x) {}
  }

  lemma CalledStop(w: World, m: Mgr, s: string)
    requires Steady(w, m) && s in w.tree && IsRunning(m.ctl[s]) && !HasRunningDependent(w, m, s)
    ensures var r := CallStop(m.(stopped := m.stopped - {s}), s);
            Steady(w, r) && SameRunning(m, r) && !r.ctl[s].started && forall x | x in m.ctl && x != s :: r.ctl[x] == m.ctl[x]
  {
    var r := CallStop(m.(stopped := m.stopped - {s}), s);
    assert OwnProcess(m.ctl[s]) && OwnProcess(r.ctl[s]) && !r.ctl[s].started;
    SteadyKept(w, m, r);
  }

  lemma QueuedHandles(w: World, m: Mgr, s: string, exempt: set<string>)
    requires Sound(w) && Steady(w, m) && s in w.tree && AllHeld(w, m, exempt) && Held(w, m, s)
    ensures var r := m.(stopped := m.stopped + {s});
            Steady(w, r) && AllHeld(w, r, exempt) && SameRunning(m, r) && HandledMore(w, m, r, {s})
  {
    var r := m.(stopped := m.stopped + {s});
    forall x | x in w.tree ensures HasRunningDependent(w, r, x) == HasRunningDependent(w, m, x) {
      SameDependents(w, m, r, x);
    }
    forall x | x in r.stopped && x !in exempt ensures Held(w, r, x) { assert x == s || Held(w, m, x); }
  }

  lemma {:induction false} NoneRuns(w: World, m: Mgr, s: string, deps: seq<string>, waiting: bool)
    requires Sound(w) && Fits(w, m) && s in w.tree && forall d | d in deps :: d in w.tree && s in w.tree[d]
    ensures var (r, late) := StopRevDeps(w, m, s, deps, waiting);
            (waiting ==> late) && (!late ==> r == m && forall d | d in deps :: !IsRunning(m.ctl[d]))
    decreases |deps|
  {
    if deps != [] {
      var d := deps[0];
      assert d in deps;
      assert forall x :: x in deps <==> x == d || x in deps[1..];
      if IsRunning(m.ctl[d]) {
        var m1 := StopService(w, m.(stopped := m.stopped + {s}), d);
        NoneRuns(w, m1.(pending := m1.pending + {d}), s, deps[1..], true);
      } else {
        NoneRuns(w, m, s, deps[1..], waiting);
      }
    }
  }

  lemma {:induction false} StopRevDepsHandles(w: World, m: Mgr, s: string, deps: seq<string>, waiting: bool,
                                              exempt: set<string>)
    requires Sound(w) && Steady(w, m) && s in w.tree && AllHeld(w, m, exempt) && IsRunning(m.ctl[s])
    requires forall d | d in deps :: d in w.tree && s in w.tree[d]
    requires waiting ==> Handled(w, m, s)
    ensures var (r, late) := StopRevDeps(w, m, s, deps, waiting);
            && Steady(w, r) && AllHeld(w, r, exempt) && SameRunning(m, r) && HandledMore(w, m, r, {})
            && (late ==> Handled(w, r, s))
    decreases w.top - w.rank[s], 0, |deps|
  {
    if deps != [] {
      var d := deps[0];
      assert d in deps;
      if IsRunning(m.ctl[d]) {
        var m2 := RevDepHandles(w, m, s, d, exempt);
        StopRevDepsHandles(w, m2, s, deps[1..], true, exempt);
        HandledThrough(w, m, m2, StopRevDeps(w, m2, s, deps[1..], true).0, s);
      } else {
        StopRevDepsHandles(w, m, s, deps[1..], waiting, exempt);
      }
    }
  }

  /** One round of the loop, for a dependent that runs. */
  lemma {:induction false} RevDepHandles(w: World, m: Mgr, s: string, d: string, exempt: set<string>) returns (r: Mgr)
    requires Sound(w) && Steady(w, m) && s in w.tree && AllHeld(w, m, exempt) && IsRunning(m.ctl[s])
    requires d in w.tree && s in w.tree[d] && IsRunning(m.ctl[d])
    ensures var m1 := StopService(w, m.(stopped := m.stopped + {s}), d);
            r == m1.(pending := m1.pending + {d})
    ensures Steady(w, r) && AllHeld(w, r, exempt) && SameRunning(m, r) && HandledMore(w, m, r, {s})
    decreases w.top - w.rank[s], 0, 0
  {
    assert Held(w, m, s);
    var m0 := m.(stopped := m.stopped + {s});
    QueuedHandles(w, m, s, exempt);
    StopHandles(w, m0, d, exempt);
    var m1 := StopService(w, m0, d);
    r := m1.(pending := m1.pending + {d});
    PendingIsNothing(w, m1, r, exempt);
    HandledOn(w, m, m0, m1, r, s);
  }

  lemma HandledThrough(w: World, m: Mgr, m2: Mgr, r: Mgr, s: string)
    requires Fits(w, m) && Fits(w, m2) && Fits(w, r) && s in w.tree
    requires SameRunning(m, m2) && HandledMore(w, m, m2, {s}) && SameRunning(m2, r) && HandledMore(w, m2, r, {})
    ensures SameRunning(m, r) && HandledMore(w, m, r, {s})
  {
  }

  lemma HandledOn(w: World, m: Mgr, m0: Mgr, m1: Mgr, m2: Mgr, s: string)
    requires Fits(w, m) && Fits(w, m0) && Fits(w, m1) && Fits(w, m2) && s in w.tree
    requires HandledMore(w, m, m0, {s}) && HandledMore(w, m0, m1, {}) && HandledMore(w, m1, m2, {})
    ensures HandledMore(w, m, m2, {s})
  {
  }

  // ----- what is stopped for another is queued to start again -----

  predicate StaysQueued(m: Mgr, r: Mgr, but: set<string>) {
    forall x | x in m.pending && x in m.ctl && IsRunning(m.ctl[x]) && x !in but :: x in r.pending
  }

  /** A running service that is queued stays queued when another one is stopped. */
  lemma {:induction false} StopKeepsQueued(w: World, m: Mgr, s: string)
    requires Sound(w) && Steady(w, m) && s in w.tree
    ensures StaysQueued(m, StopService(w, m, s), {s})
    decreases w.top - w.rank[s], 1, 0
  {
    var m1 := m.(pending := m.pending - {s});
    if IsRunning(m.ctl[s]) { StopRevDepsQueue(w, m1, s, RevDeps(w.tree, w.keys, s), false); }
  }

  lemma {:induction false} StopRevDepsQueue(w: World, m: Mgr, s: string, deps: seq<string>, waiting: bool)
    requires Sound(w) && Steady(w, m) && s in w.tree && forall d | d in deps :: d in w.tree && s in w.tree[d]
    ensures var r := StopRevDeps(w, m, s, deps, waiting).0;
            StaysQueued(m, r, {}) && forall d | d in deps && IsRunning(m.ctl[d]) :: d in r.pending
    decreases w.top - w.rank[s], 0, |deps|
  {
    if deps != [] {
      var d := deps[0];
      assert d in deps;
      assert forall x :: x in deps <==> x == d || x in deps[1..];
      if IsRunning(m.ctl[d]) {
        var m0 := m.(stopped := m.stopped + {s});
        StopKeepsQueued(w, m0, d);
        StopHandles(w, m0, d, m0.stopped);
        var m1 := StopService(w, m0, d);
        StopRevDepsQueue(w, m1.(pending := m1.pending + {d}), s, deps[1..], true);
      } else {
        StopRevDepsQueue(w, m, s, deps[1..], waiting);
      }
    }
  }

  /** When a running service is stopped, everything running that depends on it directly is queued
      to be started again. */
  lemma DependentsAreQueued(w: World, m: Mgr, s: string)
    requires Sound(w) && Steady(w, m) && s in w.tree && IsRunning(m.ctl[s])
    ensures forall d | d in w.tree && s in w.tree[d] && IsRunning(m.ctl[d]) :: d in StopService(w, m, s).pending
  {
    var deps := RevDeps(w.tree, w.keys, s);
    StopRevDepsQueue(w, m.(pending := m.pending - {s}), s, deps, false);
    forall d | d in w.tree && s in w.tree[d] ensures d in deps {}
  }

  /** Nothing else is: only services that run are queued by a stop. */
  predicate QueuesRunning(m: Mgr, r: Mgr) {
    forall x | x in r.pending && x !in m.pending :: x in m.ctl && IsRunning(m.ctl[x])
  }

  lemma {:induction false} StopQueuesRunning(w: World, m: Mgr, s: string)
    requires Sound(w) && Steady(w, m) && s in w.tree
    ensures QueuesRunning(m, StopService(w, m, s))
    decreases w.top - w.rank[s], 1, 0
  {
    var m1 := m.(pending := m.pending - {s});
    if IsRunning(m.ctl[s]) { StopRevDepsQueuesRunning(w, m1, s, RevDeps(w.tree, w.keys, s), false); }
  }

  lemma {:induction false} StopRevDepsQueuesRunning(w: World, m: Mgr, s: string, deps: seq<string>, waiting: bool)
    requires Sound(w) && Steady(w, m) && s in w.tree && forall d | d in deps :: d in w.tree && s in w.tree[d]
    ensures QueuesRunning(m, StopRevDeps(w, m, s, deps, waiting).0)
    decreases w.top - w.rank[s], 0, |deps|
  {
    if deps != [] {
      var d := deps[0];
      assert d in deps;
      if IsRunning(m.ctl[d]) {
        var m2 := RevDepQueuesRunning(w, m, s, d);
        StopRevDepsQueuesRunning(w, m2, s, deps[1..], true);
        QueuesRunningThrough(m, m2, StopRevDeps(w, m2, s, deps[1..], true).0);
      } else {
        StopRevDepsQueuesRunning(w, m, s, deps[1..], waiting);
      }
    }
  }

  /** One round of the loop, for a dependent that runs. */
  lemma {:induction false} RevDepQueuesRunning(w: World, m: Mgr, s: string, d: string) returns (r: Mgr)
    requires Sound(w) && Steady(w, m) && s in w.tree && d in w.tree && s in w.tree[d] && IsRunning(m.ctl[d])
    ensures var m1 := StopService(w, m.(stopped := m.stopped + {s}), d);
            r == m1.(pending := m1.pending + {d})
    ensures Steady(w, r) && SameRunning(m, r) && QueuesRunning(m, r)
    decreases w.top - w.rank[s], 0, 0
  {
    var m0 := m.(stopped := m.stopped + {s});
    StopQueuesRunning(w, m0, d);
    StopHandles(w, m0, d, m0.stopped);
    var m1 := StopService(w, m0, d);
    r := m1.(pending := m1.pending + {d});
  }

  lemma QueuesRunningThrough(m: Mgr, m2: Mgr, r: Mgr)
    requires SameRunning(m, m2) && QueuesRunning(m, m2) && QueuesRunning(m2, r)
    ensures QueuesRunning(m, r)
  {
  }

  lemma {:induction false} StopEachQueuesRunning(w: World, m: Mgr, names: seq<string>)
    requires Sound(w) && AllOwn(w, m) && AllHeld(w, m, {}) && forall x | x in names :: x in w.tree
    ensures QueuesRunning(m, StopEach(w, m, names))
    decreases |names|
  {
    if names != [] {
      assert names[0] in names;
      StopQueuesRunning(w, m, names[0]);
      StopHandles(w, m, names[0], {});
      SteadyKept(w, m, StopService(w, m, names[0]));
      StopEachQueuesRunning(w, StopService(w, m, names[0]), names[1..]);
    }
  }

  /** After stopAllServices a service that does not run is not queued to be started any more. */
  lemma StopAllCancels(w: World, m: Mgr, names: seq<string>)
    requires Sound(w) && AllOwn(w, m) && AllHeld(w, m, {}) && Lists(names, w.tree.Keys)
    ensures StopAll(w, m, names).pending <= Running(m)
  {
    var m0 := m.(pending := {});
    PendingIsNothing(w, m, m0, {});
    SteadyKept(w, m, m0);
    StopEachQueuesRunning(w, m0, names);
  }

  // ----- the loops -----

  lemma {:induction false} StopEachHandles(w: World, m: Mgr, names: seq<string>)
    requires Sound(w) && Steady(w, m) && AllHeld(w, m, {}) && forall x | x in names :: x in w.tree
    ensures var r := StopEach(w, m, names);
            Steady(w, r) && AllHeld(w, r, {}) && SameRunning(m, r) && HandledMore(w, m, r, set x | x in names)
    decreases |names|
  {
    if names != [] {
      assert names[0] in names;
      var m1 := StopService(w, m, names[0]);
      StopHandles(w, m, names[0], {});
      StopEachHandles(w, m1, names[1..]);
      assert forall x :: x in names <==> x == names[0] || x in names[1..];
      forall s | s in w.tree && (Handled(w, m, s) || s in names) ensures Handled(w, StopEach(w, m, names), s) {
        if s == names[0] || Handled(w, m, s) { assert Handled(w, m1, s); }
      }
    }
  }

  lemma {:induction false} StopWaitingHandles(w: World, m: Mgr, order: seq<string>)
    requires Sound(w) && Steady(w, m) && forall x | x in order :: x in w.tree
    requires AllHeld(w, m, set x | x in order)
    ensures var r := StopWaiting(w, m, order);
            Steady(w, r) && AllHeld(w, r, {}) && SameRunning(m, r) && HandledMore(w, m, r, set x | x in order)
    decreases |order|
  {
    if order != [] {
      var x := order[0];
      assert x in order;
      var rest := order[1..];
      assert forall y :: y in order <==> y == x || y in rest;
      var m0 := m.(stopped := m.stopped - {x});
      TakenOut(w, m, x, set y | y in rest);
      StopHandles(w, m0, x, set y | y in rest);
      var m1 := StopService(w, m0, x);
      StopWaitingHandles(w, m1, rest);
      forall s | s in w.tree && (Handled(w, m, s) || s in order) ensures Handled(w, StopWaiting(w, m, order), s) {
        if s == x || Handled(w, m, s) { assert Handled(w, m1, s); }
      }
    }
  }

  lemma TakenOut(w: World, m: Mgr, x: string, others: set<string>)
    requires Steady(w, m) && x in w.tree && forall s | s in m.stopped && s != x && s !in others :: Held(w, m, s)
    ensures var r := m.(stopped := m.stopped - {x});
            && Steady(w, r) && AllHeld(w, r, others) && SameRunning(m, r)
            && forall s | s in w.tree && s != x && Handled(w, m, s) :: Handled(w, r, s)
  {
    var r := m.(stopped := m.stopped - {x});
    forall s | s in w.tree ensures HasRunningDependent(w, r, s) == HasRunningDependent(w, m, s) {
      SameDependents(w, m, r, s);
    }
    forall s | s in r.stopped && s !in others ensures Held(w, r, s) { assert Held(w, m, s); }
  }

  lemma {:induction false} StopDependentsHandles(w: World, m: Mgr, deps: seq<string>)
    requires Sound(w) && Steady(w, m) && AllHeld(w, m, {}) && forall d | d in deps :: d in w.tree
    ensures var r := StopDependents(w, m, deps);
            Steady(w, r) && AllHeld(w, r, {}) && SameRunning(m, r) && HandledMore(w, m, r, set d | d in deps)
    decreases |deps|
  {
    if deps != [] {
      var d := deps[0];
      assert d in deps;
      assert forall x :: x in deps <==> x == d || x in deps[1..];
      var r := StopDependents(w, m, deps);
      if IsRunning(m.ctl[d]) {
        var m2 := DependentHandles(w, m, d);
        StopDependentsHandles(w, m2, deps[1..]);
        forall s | s in w.tree && (Handled(w, m, s) || s in deps) ensures Handled(w, r, s) {
          if s == d || Handled(w, m, s) { assert Handled(w, m2, s); }
        }
      } else {
        StopDependentsHandles(w, m, deps[1..]);
        assert Handled(w, m, d);
      }
    }
  }

  /** One round of the loop, for a dependent that runs. */
  lemma DependentHandles(w: World, m: Mgr, d: string) returns (r: Mgr)
    requires Sound(w) && Steady(w, m) && AllHeld(w, m, {}) && d in w.tree
    ensures var m1 := StopService(w, m, d); r == m1.(pending := m1.pending + {d})
    ensures Steady(w, r) && AllHeld(w, r, {}) && SameRunning(m, r) && HandledMore(w, m, r, {d})
    ensures StaysQueued(m, r, {}) && d in r.pending
  {
    StopHandles(w, m, d, {});
    StopKeepsQueued(w, m, d);
    var m1 := StopService(w, m, d);
    r := m1.(pending := m1.pending + {d});
    PendingIsNothing(w, m1, r, {});
  }

  /** The running services among them are queued to be started again. */
  lemma {:induction false} StopDependentsQueue(w: World, m: Mgr, deps: seq<string>)
    requires Sound(w) && Steady(w, m) && AllHeld(w, m, {}) && forall d | d in deps :: d in w.tree
    ensures var r := StopDependents(w, m, deps);
            StaysQueued(m, r, {}) && forall d | d in deps && IsRunning(m.ctl[d]) :: d in r.pending
    decreases |deps|
  {
    if deps != [] {
      var d := deps[0];
      assert d in deps;
      assert forall x :: x in deps <==> x == d || x in deps[1..];
      if IsRunning(m.ctl[d]) {
        var m2 := DependentHandles(w, m, d);
        StopDependentsQueue(w, m2, deps[1..]);
      } else {
        StopDependentsQueue(w, m, deps[1..]);
      }
    }
  }

  /** After a service went down, every service that waited is handled again. */
  lemma FinishedHandles(w: World, m: Mgr, s: string, order: seq<string>)
    requires Sound(w) && AllOwn(w, m) && s in w.tree && Lists(order, m.stopped)
    ensures var r := ServiceStopped(w, SetCtl(m, s, Finished(m.ctl[s])), s, order);
            && AllOwn(w, r) && AllHeld(w, r, {}) && Running(r) == Running(m) - {s}
            && (AllHandled(w, m) ==> AllHandled(w, r))
  {
    var m0 := SetCtl(m, s, Finished(m.ctl[s]));
    FinishedOwn(w, m, s, order);
    ServiceStoppedHandles(w, m0, s, order);
    SteadyKept(w, m0, ServiceStopped(w, m0, s, order));
    SameRunningSet(m0, ServiceStopped(w, m0, s, order));
  }

  lemma SameRunningSet(m: Mgr, r: Mgr)
    requires SameRunning(m, r)
    ensures Running(r) == Running(m)
  {
  }

  lemma ServiceStoppedHandles(w: World, m: Mgr, s: string, order: seq<string>)
    requires Sound(w) && Steady(w, m) && forall x | x in order :: x in w.tree
    requires AllHeld(w, m, set x | x in order)
    ensures var r := ServiceStopped(w, m, s, order);
            && Steady(w, r) && AllHeld(w, r, {}) && SameRunning(m, r)
            && ((forall x | x in w.tree && x !in order :: Handled(w, m, x)) ==> AllHandled(w, r))
  {
    StopWaitingHandles(w, m, order);
    var m1 := StopWaiting(w, m, order);
    StopDependentsHandles(w, m1, RevDeps(w.tree, w.keys, s));
    if forall x | x in w.tree && x !in order :: Handled(w, m, x) {
      HandledAgain(w, m, m1, ServiceStopped(w, m, s, order), order);
    }
  }

  lemma HandledAgain(w: World, m0: Mgr, m1: Mgr, r: Mgr, order: seq<string>)
    requires Fits(w, m0) && Fits(w, m1) && Fits(w, r)
    requires forall x | x in w.tree && x !in order :: Handled(w, m0, x)
    requires HandledMore(w, m0, m1, set x | x in order)
    requires forall x | x in w.tree && Handled(w, m1, x) :: Handled(w, r, x)
    ensures AllHandled(w, r)
  {
    forall x | x in w.tree ensures Handled(w, r, x) {
      assert Handled(w, m0, x) || x in order;
      assert Handled(w, m1, x);
    }
  }

  // ----- what depends on a service that stopped -----

  /** Every running service that depends directly on one that stopped was told to stop, or waits for
      a dependent of its own, and is queued to be started again. */
  predicate DependentsFollow(w: World, m: Mgr, r: Mgr, s: string)
    requires Fits(w, m) && Fits(w, r)
  {
    forall d | d in w.tree && s in w.tree[d] && IsRunning(m.ctl[d]) :: d in r.pending && Handled(w, r, d)
  }

  lemma StoppedIsFollowed(w: World, m: Mgr, s: string, order: seq<string>)
    requires Sound(w) && Steady(w, m) && Lists(order, m.stopped) && forall x | x in order :: x in w.tree
    ensures DependentsFollow(w, m, ServiceStopped(w, m, s, order), s)
    ensures SameRunning(m, ServiceStopped(w, m, s, order))
  {
    var m1, deps := StopWaiting(w, m, order), RevDeps(w.tree, w.keys, s);
    StopWaitingHandles(w, m, order);
    StopDependentsHandles(w, m1, deps);
    StopDependentsQueue(w, m1, deps);
    forall d | d in w.tree && s in w.tree[d] ensures d in deps {}
  }

  /** A process that ends, of a service the server started. */
  lemma FinishedIsFollowed(w: World, m: Mgr, s: string, order: seq<string>)
    requires Sound(w) && AllOwn(w, m) && Possible(w, m, ProcessFinished(s, order))
    ensures DependentsFollow(w, m, Apply(w, m, ProcessFinished(s, order)), s)
  {
    var m0 := SetCtl(m, s, Finished(m.ctl[s]));
    FinishedOwn(w, m, s, order);
    StoppedIsFollowed(w, m0, s, order);
    forall d | d in w.tree && s in w.tree[d] ensures d != s && m0.ctl[d] == m.ctl[d] {}
  }

  /** An attached service that leaves the bus, where the server started all others. */
  lemma GoneIsFollowed(w: World, m: Mgr, s: string, order: seq<string>, reg: set<string>)
    requires Sound(w) && Fits(w, m) && Possible(w, m, NameGone(s, order, reg)) && m.ctl[s].attached
    requires forall x | x in w.tree && x != s :: OwnProcess(m.ctl[x])
    ensures DependentsFollow(w, m, Apply(w, m, NameGone(s, order, reg)), s)
  {
    if HasRunningDependent(w, m, s) {
      var m1 := ServiceStopped(w, m, s, order);
      StoppedIsFollowed(w, m, s, order);
      ResetIsFollowed(w, m, m1, s, AfterUnregistered(m1.ctl[s], s in reg));
    } else {
      forall d | d in w.tree && s in w.tree[d] ensures !IsRunning(m.ctl[d]) {}
    }
  }

  lemma ResetIsFollowed(w: World, m: Mgr, m1: Mgr, s: string, c: Ctl)
    requires Sound(w) && Fits(w, m) && Fits(w, m1) && s in w.tree && DependentsFollow(w, m, m1, s)
    ensures DependentsFollow(w, m, SetCtl(m1, s, c), s)
  {
    var r := SetCtl(m1, s, c);
    forall d | d in w.tree && s in w.tree[d] && IsRunning(m.ctl[d]) ensures Handled(w, r, d) {
      assert Handled(w, m1, d);
      if x :| x in w.tree && d in w.tree[x] && IsRunning(m1.ctl[x]) { assert x != s && IsRunning(r.ctl[x]); }
    }
  }

  lemma FinishedOwn(w: World, m: Mgr, s: string, order: seq<string>)
    requires Sound(w) && AllOwn(w, m) && s in w.tree && Lists(order, m.stopped)
    ensures var r := SetCtl(m, s, Finished(m.ctl[s]));
            && AllOwn(w, r) && AllHeld(w, r, set x | x in order) && Running(r) == Running(m) - {s}
            && (AllHandled(w, m) ==> forall x | x in w.tree && x !in order :: Handled(w, r, x))
  {
    assert OwnProcess(m.ctl[s]);
    var r := SetCtl(m, s, Finished(m.ctl[s]));
    if AllHandled(w, m) {
      forall x | x in w.tree && x !in order ensures Handled(w, r, x) { assert Handled(w, m, x); }
    }
  }

  // ----- starting services the server runs itself -----

  lemma {:induction false} StartOwn(w: World, m: Mgr, s: string)
    requires Sound(w) && AllOwn(w, m) && s in w.tree && AllHeld(w, m, {})
    ensures var r := StartService(w, m, s, {}); AllOwn(w, r) && AllHeld(w, r, {})
    decreases w.rank[s], 1, 0
  {
    var m1 := m.(stopped := m.stopped - {s});
    RunsOnHeld(w, m, m1);
    if !IsRunning(m.ctl[s]) {
      StartDepsOwn(w, m1, s, w.tree[s], false);
      var (m2, queued) := StartDeps(w, m1, s, w.tree[s], false, {});
      if !queued { CallStartOwn(w, m2, s); }
    }
  }

  lemma CallStartOwn(w: World, m: Mgr, s: string)
    requires AllOwn(w, m) && s in w.tree && AllHeld(w, m, {})
    ensures var r := CallStart(m, s, {}); AllOwn(w, r) && AllHeld(w, r, {})
  {
    assert OwnProcess(m.ctl[s]);
    RunsOnHeld(w, m, CallStart(m, s, {}));
  }

  lemma {:induction false} StartDepsOwn(w: World, m: Mgr, s: string, deps: seq<string>, queued: bool)
    requires Sound(w) && AllOwn(w, m) && s in w.tree && AllHeld(w, m, {}) && forall d | d in deps :: d in w.tree[s]
    ensures var r := StartDeps(w, m, s, deps, queued, {}).0; AllOwn(w, r) && AllHeld(w, r, {})
    decreases w.rank[s], 0, |deps|
  {
    if deps != [] {
      var d := deps[0];
      assert d in deps;
      var wait := !queued && !m.ctl[d].initialized;
      var m1 := if wait then m.(pending := m.pending + {s}) else m;
      RunsOnHeld(w, m, m1);
      if !IsRunning(m1.ctl[d]) { StartOwn(w, m1, d); }
      var m2 := if IsRunning(m1.ctl[d]) then m1 else StartService(w, m1, d, {});
      StartDepsOwn(w, m2, s, deps[1..], queued || wait);
    }
  }

  /** More running and fewer waiting services leave each waiting one held. */
  lemma RunsOnHeld(w: World, m: Mgr, r: Mgr)
    requires Fits(w, m) && Fits(w, r) && AllHeld(w, m, {}) && r.stopped <= m.stopped
    requires forall s | s in w.tree && IsRunning(m.ctl[s]) :: IsRunning(r.ctl[s])
    ensures AllHeld(w, r, {})
  {
    forall s | s in r.stopped ensures Held(w, r, s) {
      assert Held(w, m, s);
      var x :| x in w.tree && s in w.tree[x] && IsRunning(m.ctl[x]);
      assert IsRunning(r.ctl[x]);
    }
  }

  lemma {:induction false} StartEachOwn(w: World, m: Mgr, names: seq<string>)
    requires Sound(w) && AllOwn(w, m) && AllHeld(w, m, {}) && forall x | x in names :: x in w.tree
    ensures var r := StartEach(w, m, names, {}); AllOwn(w, r) && AllHeld(w, r, {})
    decreases |names|
  {
    if names != [] {
      assert names[0] in names;
      StartOwn(w, m, names[0]);
      StartEachOwn(w, StartService(w, m, names[0], {}), names[1..]);
    }
  }

  lemma {:induction false} RetryOwn(w: World, m: Mgr, s: string, order: seq<string>)
    requires Sound(w) && AllOwn(w, m) && AllHeld(w, m, {}) && forall x | x in order :: x in w.tree
    ensures var r := Retry(w, m, s, order, {}); AllOwn(w, r) && AllHeld(w, r, {})
    decreases |order|
  {
    if order != [] {
      var x := order[0];
      assert x in order;
      if s in w.tree[x] {
        var m0 := m.(pending := m.pending - {x});
        RunsOnHeld(w, m, m0);
        StartOwn(w, m0, x);
        RetryOwn(w, StartService(w, m0, x, {}), s, order[1..]);
      } else {
        RetryOwn(w, m, s, order[1..]);
      }
    }
  }

  // ----- runs -----

  /** Any event but those of attached services, and of processes that are started or lost without
      the server being told. */
  predicate OwnEvent(m: Mgr, e: Event) {
    match e
    case StartRequest(_, reg) => reg == {}
    case StartAllRequest(_, reg) => reg == {}
    case ReportsInit(_, _, _, reg) => reg == {} && !Late(m, e)
    case NameTaken(name) => name in m.ctl && IsRunning(m.ctl[name])
    case ProcessRelaunched(_) => false
    case ProcessFailed(_) => false
    case _ => true
  }

  /** Stop requests, services going down, told to or not, and running services registering on the bus
      or reporting, told to stop or not, as long as nothing queued waits for the report. */
  predicate ShutdownEvent(m: Mgr, e: Event) {
    match e
    case StopRequest(_) => true
    case StopAllRequest(_) => true
    case ProcessFinished(_, _) => true
    case NameTaken(name) => name in m.ctl && IsRunning(m.ctl[name])
    case ReportsInit(name, success, _, _) =>
      !Late(m, e) && (success && name in m.ctl && !m.ctl[name].initialized ==> m.pending == {})
    case NameGone(_, _, _) => true
    case InterfaceLost(_) => true
    case InterfaceMade(_) => true
    case _ => false
  }

  lemma SetCtlOwn(w: World, m: Mgr, s: string, c: Ctl)
    requires AllOwn(w, m) && AllHeld(w, m, {}) && s in w.tree && OwnProcess(c) && IsRunning(c) == IsRunning(m.ctl[s])
    ensures var r := SetCtl(m, s, c);
            && AllOwn(w, r) && AllHeld(w, r, {}) && SameRunning(m, r)
            && (c.started == m.ctl[s].started ==> HandledMore(w, m, r, {}))
  {
    var r := SetCtl(m, s, c);
    RunsOnHeld(w, m, r);
    forall x | x in w.tree ensures HasRunningDependent(w, r, x) == HasRunningDependent(w, m, x) {
      SameDependents(w, m, r, x);
    }
  }

  lemma EventOwn(w: World, m: Mgr, e: Event)
    requires Sound(w) && AllOwn(w, m) && AllHeld(w, m, {}) && Possible(w, m, e) && OwnEvent(m, e)
    ensures var r := Apply(w, m, e); AllOwn(w, r) && AllHeld(w, r, {})
  {
    match e
    case StartRequest(name, reg) => if name in w.tree { StartOwn(w, m, name); }
    case StartAllRequest(names, reg) => StartEachOwn(w, m, names);
    case ReportsInit(name, success, order, reg) =>
      var c := m.ctl[name];
      SlotsKeepWellKept(c, false, success);
      SetCtlOwn(w, m, name, Reported(c, success));
      RetryOwn(w, SetCtl(m, name, Reported(c, success)), name, order);
    case NameTaken(name) =>
      SlotsKeepWellKept(m.ctl[name], false, false);
      SetCtlOwn(w, m, name, Registered(m.ctl[name]));
    case ProcessFinished(name, order) => FinishedHandles(w, m, name, order);
    case _ => ShutdownKeeps(w, m, e);
  }

  /** Requests to stop, and what does not matter. */
  lemma ShutdownKeeps(w: World, m: Mgr, e: Event)
    requires Sound(w) && AllOwn(w, m) && AllHeld(w, m, {}) && Possible(w, m, e)
    requires ShutdownEvent(m, e) && !e.ProcessFinished?
    ensures var r := Apply(w, m, e);
            && AllOwn(w, r) && AllHeld(w, r, {}) && Running(r) == Running(m)
            && (AllHandled(w, m) || e.StopAllRequest? ==> AllHandled(w, r))
  {
    match e
    case StopRequest(name) => if name in w.tree { StopHandles(w, m, name, {}); }
    case StopAllRequest(names) => StopAllHandles(w, m, names);
    case NameGone(name, _, _) => assert OwnProcess(m.ctl[name]);
    case NameTaken(name) =>
      SlotsKeepWellKept(m.ctl[name], false, false);
      assert OwnProcess(m.ctl[name]);
      NotStartedKeeps(w, m, name, Registered(m.ctl[name]));
    case ReportsInit(name, success, order, reg) => ReportKeeps(w, m, name, success, order, reg);
    case InterfaceLost(name) =>
      assert OwnProcess(m.ctl[name]);
      NotStartedKeeps(w, m, name, m.ctl[name].(hasInterface := false));
    case InterfaceMade(name) =>
      SlotsKeepWellKept(m.ctl[name], false, false);
      assert OwnProcess(m.ctl[name]);
      NotStartedKeeps(w, m, name, WithInterface(m.ctl[name]));
  }

  /** A report nothing waits for only sets a flag. */
  lemma ReportKeeps(w: World, m: Mgr, s: string, success: bool, order: seq<string>, reg: set<string>)
    requires Sound(w) && AllOwn(w, m) && AllHeld(w, m, {}) && s in w.tree && Lists(order, m.pending)
    requires success ==> m.ctl[s].state != StateStopped && (m.ctl[s].initialized || m.pending == {})
    ensures var r := AfterReport(w, m, s, success, order, reg);
            AllOwn(w, r) && AllHeld(w, r, {}) && Running(r) == Running(m) && (AllHandled(w, m) ==> AllHandled(w, r))
  {
    assert order != [] ==> order[0] in order;
    SlotsKeepWellKept(m.ctl[s], false, success);
    assert OwnProcess(m.ctl[s]);
    NotStartedKeeps(w, m, s, Reported(m.ctl[s], success));
  }

  lemma NotStartedKeeps(w: World, m: Mgr, s: string, c: Ctl)
    requires AllOwn(w, m) && AllHeld(w, m, {}) && s in w.tree && OwnProcess(c)
    requires c.started == m.ctl[s].started && IsRunning(c) == IsRunning(m.ctl[s])
    ensures var r := SetCtl(m, s, c);
            AllOwn(w, r) && AllHeld(w, r, {}) && Running(r) == Running(m) && (AllHandled(w, m) ==> AllHandled(w, r))
  {
    SetCtlOwn(w, m, s, c);
  }

  lemma StopAllHandles(w: World, m: Mgr, names: seq<string>)
    requires Sound(w) && AllOwn(w, m) && AllHeld(w, m, {}) && Lists(names, w.tree.Keys)
    ensures var r := StopAll(w, m, names);
            AllOwn(w, r) && AllHeld(w, r, {}) && Running(r) == Running(m) && AllHandled(w, r)
  {
    var m0 := m.(pending := {});
    PendingIsNothing(w, m, m0, {});
    StopEachHandles(w, m0, names);
  }

  /** Of the services that run, only one that goes down is lost, and none is added. */
  lemma ShutdownStep(w: World, m: Mgr, e: Event)
    requires Sound(w) && AllOwn(w, m) && AllHeld(w, m, {}) && Possible(w, m, e) && ShutdownEvent(m, e)
    ensures var r := Apply(w, m, e);
            && AllOwn(w, r) && AllHeld(w, r, {})
            && (AllHandled(w, m) || e.StopAllRequest? ==> AllHandled(w, r))
            && Running(r) == if e.ProcessFinished? then Running(m) - {e.name} else Running(m)
  {
    if e.ProcessFinished? { FinishedHandles(w, m, e.name, e.order); } else { ShutdownKeeps(w, m, e); }
  }

  lemma {:induction false} RunOwn(w: World, states: seq<Mgr>, events: seq<Event>)
    requires Sound(w) && IsRun(w, states, events) && Initial(w, states[0])
    requires forall i | 0 <= i < |events| :: OwnEvent(states[i], events[i])
    ensures AllOwn(w, states[|events|]) && AllHeld(w, states[|events|], {})
    decreases |events|
  {
    if events != [] {
      var n := |events| - 1;
      assert IsRun(w, states[..|events|], events[..n]);
      RunOwn(w, states[..|events|], events[..n]);
      EventOwn(w, states[n], events[n]);
    }
  }

  lemma {:induction false} ShutdownRun(w: World, states: seq<Mgr>, events: seq<Event>)
    requires Sound(w) && IsRun(w, states, events) && AllOwn(w, states[0]) && AllHeld(w, states[0], {})
    requires events != [] && events[0].StopAllRequest?
    requires forall i | 0 <= i < |events| :: ShutdownEvent(states[i], events[i])
    ensures var m := states[|events|]; AllOwn(w, m) && AllHeld(w, m, {}) && AllHandled(w, m)
    decreases |events|
  {
    var n := |events| - 1;
    if n > 0 {
      assert IsRun(w, states[..|events|], events[..n]);
      ShutdownRun(w, states[..|events|], events[..n]);
    }
    ShutdownStep(w, states[n], events[n]);
  }

  // ----- progress -----

  /** While something runs, a running service has been told to stop. */
  lemma {:induction false} SomeoneIsStopping(w: World, m: Mgr, s: string) returns (t: string)
    requires Sound(w) && AllOwn(w, m) && AllHandled(w, m) && s in w.tree && IsRunning(m.ctl[s])
    ensures t in w.tree && IsRunning(m.ctl[t]) && !m.ctl[t].started
    decreases w.top - w.rank[s]
  {
    if !m.ctl[s].started {
      t := s;
    } else {
      assert Handled(w, m, s);
      var x :| x in w.tree && s in w.tree[x] && IsRunning(m.ctl[x]);
      t := SomeoneIsStopping(w, m, x);
    }
  }

  /** Shutdown: after stopAllServices, through any stop requests and told services going down, each
      running service was told to stop or waits for a running dependent; only such services wait;
      and once every told service is down nothing runs and nothing waits. */
  lemma ShutdownProgress(w: World, before: seq<Mgr>, earlier: seq<Event>, states: seq<Mgr>, events: seq<Event>)
    requires Sound(w) && IsRun(w, before, earlier) && Initial(w, before[0])
    requires forall i | 0 <= i < |earlier| :: OwnEvent(before[i], earlier[i])
    requires IsRun(w, states, events) && states[0] == before[|earlier|]
    requires events != [] && events[0].StopAllRequest?
    requires forall i | 0 <= i < |events| :: ShutdownEvent(states[i], events[i])
    ensures var m := states[|events|];
            Fits(w, m) && AllHandled(w, m) && forall s | s in m.stopped :: Held(w, m, s)
    ensures var m := states[|events|];
            Running(m) != {} ==> exists s | s in Running(m) :: !m.ctl[s].started
    ensures var m := states[|events|];
            (forall s | s in Running(m) :: m.ctl[s].started) ==> Running(m) == {} && m.stopped == {}
  {
    RunOwn(w, before, earlier);
    ShutdownRun(w, states, events);
    var m := states[|events|];
    forall s | s in Running(m) ensures exists t | t in Running(m) :: !m.ctl[t].started {
      var t := SomeoneIsStopping(w, m, s);
      assert t in Running(m);
    }
    forall s | s in m.stopped ensures s in Running(m) { assert Held(w, m, s); }
  }
}
