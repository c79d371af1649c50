/** How far the start or stop of a service reaches into the tree (server/servicemanager.cpp:240-315). */
module ServiceScope {
  import opened Dependencies
  import opened Controllers
  import opened ServiceManager

  /** The service and all that it depends on. */
  ghost function Below(w: World, s: string): set<string> {
    set x | x in w.tree && (x == s || Reaches(w.tree, s, x))
  }

  /** The service and all that depends on it. */
  ghost function Above(w: World, s: string): set<string> {
    set x | x in w.tree && (x == s || Reaches(w.tree, x, s))
  }

  /** Every other service is as before: its controller, and whether it waits for a start or a stop. */
  predicate SameOutside(m: Mgr, r: Mgr, part: set<string>) {
    && r.ctl.Keys == m.ctl.Keys
    && forall x | x in m.ctl && x !in part ::
         r.ctl[x] == m.ctl[x] && (x in r.pending <==> x in m.pending) && (x in r.stopped <==> x in m.stopped)
  }

  lemma BelowGrows(w: World, s: string, d: string)
    requires s in w.tree && d in w.tree[s]
    ensures Below(w, d) <= Below(w, s)
  {
    ReachesDirectly(w.tree, s, d);
    forall x | x in Below(w, d) ensures x in Below(w, s) {
      if x != d { ReachesThrough(w.tree, s, d, x); }
    }
  }

  lemma AboveGrows(w: World, s: string, d: string)
    requires d in w.tree && s in w.tree[d]
    ensures Above(w, d) <= Above(w, s)
  {
    ReachesDirectly(w.tree, d, s);
    forall x | x in Above(w, d) ensures x in Above(w, s) {
      if x != d { ReachesThrough(w.tree, x, d, s); }
    }
  }

  lemma SameThrough(m: Mgr, m1: Mgr, r: Mgr, inner: set<string>, part: set<string>)
    requires SameOutside(m, m1, inner) && SameOutside(m1, r, part) && inner <= part
    ensures SameOutside(m, r, part)
  {
  }

  /** Starting a service concerns it and what it depends on. */
  lemma {:induction false} StartStaysBelow(w: World, m: Mgr, s: string, reg: set<string>)
    requires Sound(w) && Fits(w, m) && s in w.tree
    ensures SameOutside(m, StartService(w, m, s, reg), Below(w, s))
    decreases w.rank[s], 1, 0
  {
    if !IsRunning(m.ctl[s]) { StartDepsStayBelow(w, m.(stopped := m.stopped - {s}), s, w.tree[s], false, reg); }
  }

  lemma {:induction false} StartDepsStayBelow(w: World, m: Mgr, s: string, deps: seq<string>, queued: bool, reg: set<string>)
    requires Sound(w) && Fits(w, m) && s in w.tree && forall d | d in deps :: d in w.tree[s]
    ensures SameOutside(m, StartDeps(w, m, s, deps, queued, reg).0, Below(w, s))
    decreases w.rank[s], 0, |deps|
  {
    if deps != [] {
      var d := deps[0];
      assert d in deps;
      var wait := !queued && !m.ctl[d].initialized;
      var m2 := OneDepStaysBelow(w, m, s, d, wait, reg);
      StartDepsStayBelow(w, m2, s, deps[1..], queued || wait, reg);
      SameThrough(m, m2, StartDeps(w, m2, s, deps[1..], queued || wait, reg).0, Below(w, s), Below(w, s));
    }
  }

  /** One round of the loop. */
  lemma {:induction false} OneDepStaysBelow(w: World, m: Mgr, s: string, d: string, wait: bool, reg: set<string>)
      returns (r: Mgr)
    requires Sound(w) && Fits(w, m) && s in w.tree && d in w.tree[s]
    ensures var m1 := if wait then m.(pending := m.pending + {s}) else m;
            r == if IsRunning(m1.ctl[d]) then m1 else StartService(w, m1, d, reg)
    ensures Fits(w, r) && SameOutside(m, r, Below(w, s))
    decreases w.rank[s], 0, 0
  {
    var m1 := if wait then m.(pending := m.pending + {s}) else m;
    assert SameOutside(m, m1, {s});
    r := m1;
    if !IsRunning(m1.ctl[d]) {
      r := StartService(w, m1, d, reg);
      StartStaysBelow(w, m1, d, reg);
      BelowGrows(w, s, d);
    }
  }

  /** Stopping a service concerns it and what depends on it. */
  lemma {:induction false} StopStaysAbove(w: World, m: Mgr, s: string)
    requires Sound(w) && Fits(w, m) && s in w.tree
    ensures SameOutside(m, StopService(w, m, s), Above(w, s))
    decreases w.top - w.rank[s], 1, 0
  {
    if IsRunning(m.ctl[s]) { StopRevDepsStayAbove(w, m.(pending := m.pending - {s}), s, RevDeps(w.tree, w.keys, s), false); }
  }

  lemma {:induction false} StopRevDepsStayAbove(w: World, m: Mgr, s: string, deps: seq<string>, waiting: bool)
    requires Sound(w) && Fits(w, m) && s in w.tree && forall d | d in deps :: d in w.tree && s in w.tree[d]
    ensures SameOutside(m, StopRevDeps(w, m, s, deps, waiting).0, Above(w, s))
    decreases w.top - w.rank[s], 0, |deps|
  {
    if deps != [] {
      var d := deps[0];
      assert d in deps;
      if IsRunning(m.ctl[d]) {
        var m0 := m.(stopped := m.stopped + {s});
        StopStaysAbove(w, m0, d);
        AboveGrows(w, s, d);
        var m1 := StopService(w, m0, d);
        var m2 := m1.(pending := m1.pending + {d});
        assert d in Above(w, d);
        StopRevDepsStayAbove(w, m2, s, deps[1..], true);
        assert SameOutside(m, m2, Above(w, s));
        SameThrough(m, m2, StopRevDeps(w, m2, s, deps[1..], true).0, Above(w, s), Above(w, s));
      } else {
        StopRevDepsStayAbove(w, m, s, deps[1..], waiting);
      }
    }
  }
}
