/** ServiceManager::Private as it is, its fields changed in place (server/servicemanager.cpp:130-411).
    Every method is tied to its function in ServiceManager. The controllers are kept by value: what
    a call does to one is the function that Controllers.ServiceController is proved against. */
module ManagerMethods {
  import opened Counting
  import opened Dependencies
  import opened DependencyCleanup
  import opened Controllers
  import SM = ServiceManager

  /** What a desktop file says of a service. */
  datatype Module = Module(name: string, dependencies: seq<string>)

  function Without(names: seq<string>, name: string): (r: seq<string>)
    ensures forall x :: x in r <==> x in names && x != name
  {
    if names == [] then []
    else if names[0] == name then Without(names[1..], name)
    else [names[0]] + Without(names[1..], name)
  }

  /** Services that name no dependency depend on the storage; none depends on itself. */
  function DependenciesOf(m: Module): seq<string> {
    Without(if m.dependencies == [] then ["nepomukstorage"] else m.dependencies, m.name)
  }

  /** A later module replaces an earlier one of the same name. */
  function Declared(modules: seq<Module>): Tree {
    if modules == [] then map[]
    else
      var n := |modules| - 1;
      Declared(modules[..n])[modules[n].name := DependenciesOf(modules[n])]
  }

  lemma {:induction false} DeclaredNames(modules: seq<Module>, s: string)
    ensures s in Declared(modules) <==> exists k | 0 <= k < |modules| :: modules[k].name == s
  {
    if modules != [] {
      var n := |modules| - 1;
      DeclaredNames(modules[..n], s);
      if k :| 0 <= k < |modules| && modules[k].name == s && s != modules[n].name { assert modules[..n][k].name == s; }
    }
  }

  /** What the last module of a name declares: its dependencies but itself, the storage if it names
      none. */
  lemma {:induction false} DeclaresExactly(modules: seq<Module>, k: nat, s: string)
    requires k < |modules| && forall j | k < j < |modules| :: modules[j].name != modules[k].name
    ensures var m := modules[k];
            && m.name in Declared(modules)
            && (s in Declared(modules)[m.name] <==>
                  s != m.name && (s in m.dependencies || (m.dependencies == [] && s == "nepomukstorage")))
    decreases |modules|
  {
    var n := |modules| - 1;
    if k < n { DeclaresExactly(modules[..n], k, s); }
  }

  method ToList(members: set<string>) returns (order: seq<string>)
    ensures SM.Lists(order, members)
  {
    order := [];
    var todo := members;
    while todo != {}
      invariant todo <= members && NoRepeats(order)
      invariant forall x :: x in order <==> x in members && x !in todo
      decreases todo
    {
      var x :| x in todo;
      todo := todo - {x};
      order := order + [x];
    }
  }

  /** A bound on all ranks. */
  ghost function Top(rank: map<string, nat>): (t: nat)
    ensures forall s | s in rank :: rank[s] <= t
  {
    if rank == map[] then 0
    else
      var s :| s in rank;
      assert forall x | x in rank && x != s :: x in rank - {s};
      var rest := Top(rank - {s});
      if rank[s] > rest then rank[s] else rest
  }

  lemma PickRank(tree: Tree) returns (rank: map<string, nat>, top: nat)
    requires Closed(tree) && Acyclic(tree)
    ensures IsRank(tree, rank) && forall s | s in tree :: rank[s] <= top
  {
    RankExists(tree);
    rank :| IsRank(tree, rank);
    top := Top(rank);
  }

  method Declare(all: seq<Module>) returns (declared: Tree)
    ensures declared == Declared(all)
  {
    declared := map[];
    for i := 0 to |all|
      invariant declared == Declared(all[..i])
    {
      assert all[..i + 1][..i] == all[..i];
      declared := declared[all[i].name := DependenciesOf(all[i])];
    }
    assert all[..|all|] == all;
  }

  method MakeControllers(all: seq<Module>, tree: Tree) returns (made: map<string, Ctl>)
    requires forall s | s in tree :: exists k | 0 <= k < |all| :: all[k].name == s
    ensures made.Keys == tree.Keys && forall s | s in made :: made[s] == NEW_CTL
  {
    made := map[];
    for i := 0 to |all|
      invariant made.Keys <= tree.Keys && forall k | 0 <= k < i && all[k].name in tree :: all[k].name in made
      invariant forall s | s in made :: made[s] == NEW_CTL
    {
      if all[i].name in tree {
        made := made[all[i].name := NEW_CTL];
      }
    }
  }

  // ----- one round of each loop -----

  lemma RevDepsAt(tree: Tree, keys: seq<string>, i: nat, name: string)
    requires (forall k | k in keys :: k in tree) && i < |keys|
    ensures SM.RevDeps(tree, keys[i..], name) ==
            (if name in tree[keys[i]] then [keys[i]] else []) + SM.RevDeps(tree, keys[i + 1..], name)
  {
    assert keys[i..][0] == keys[i] && keys[i..][1..] == keys[i + 1..];
  }

  /** DependencyTree::servicesDependingOn, in the order of the hash. */
  method ServicesDependingOn(tree: Tree, keys: seq<string>, name: string) returns (names: seq<string>)
    requires forall k | k in keys :: k in tree
    ensures names == SM.RevDeps(tree, keys, name)
  {
    names := [];
    for i := 0 to |keys|
      invariant SM.RevDeps(tree, keys, name) == names + SM.RevDeps(tree, keys[i..], name)
    {
      RevDepsAt(tree, keys, i, name);
      ghost var rest := SM.RevDeps(tree, keys[i + 1..], name);
      if name in tree[keys[i]] {
        assert names + ([keys[i]] + rest) == (names + [keys[i]]) + rest;
        names := names + [keys[i]];
      } else {
        assert names + ([] + rest) == names + rest;
      }
    }
  }

  function AfterRevDep(w: SM.World, m: SM.Mgr, s: string, d: string): (r: SM.Mgr)
    requires SM.Sound(w) && SM.Fits(w, m) && s in w.tree && d in w.tree
  {
    var m1 := SM.StopService(w, m.(stopped := m.stopped + {s}), d);
    m1.(pending := m1.pending + {d})
  }

  lemma StopRevDepsAt(w: SM.World, m: SM.Mgr, s: string, deps: seq<string>, i: nat, waiting: bool)
    requires SM.Sound(w) && SM.Fits(w, m) && s in w.tree && i < |deps|
    requires forall d | d in deps :: d in w.tree && s in w.tree[d]
    ensures deps[i] in w.tree && s in w.tree[deps[i]]
    ensures SM.StopRevDeps(w, m, s, deps[i..], waiting) ==
            if IsRunning(m.ctl[deps[i]]) then SM.StopRevDeps(w, AfterRevDep(w, m, s, deps[i]), s, deps[i + 1..], true)
            else SM.StopRevDeps(w, m, s, deps[i + 1..], waiting)
  {
    assert deps[i] in deps && deps[i..][0] == deps[i] && deps[i..][1..] == deps[i + 1..];
  }

  function AfterDep(w: SM.World, m: SM.Mgr, s: string, d: string, queued: bool, reg: set<string>): (r: SM.Mgr)
    requires SM.Sound(w) && SM.Fits(w, m) && s in w.tree && d in w.tree[s]
  {
    var m1 := if !queued && !m.ctl[d].initialized then m.(pending := m.pending + {s}) else m;
    if IsRunning(m1.ctl[d]) then m1 else SM.StartService(w, m1, d, reg)
  }

  lemma StartDepsAt(w: SM.World, m: SM.Mgr, s: string, deps: seq<string>, i: nat, queued: bool, reg: set<string>)
    requires SM.Sound(w) && SM.Fits(w, m) && s in w.tree && i < |deps| && forall d | d in deps :: d in w.tree[s]
    ensures deps[i] in w.tree[s]
    ensures SM.StartDeps(w, m, s, deps[i..], queued, reg) ==
            SM.StartDeps(w, AfterDep(w, m, s, deps[i], queued, reg), s, deps[i + 1..],
                         queued || !m.ctl[deps[i]].initialized, reg)
  {
    assert deps[i] in deps && deps[i..][0] == deps[i] && deps[i..][1..] == deps[i + 1..];
  }

  lemma StopWaitingAt(w: SM.World, m: SM.Mgr, order: seq<string>, i: nat)
    requires SM.Sound(w) && SM.Fits(w, m) && i < |order| && forall x | x in order :: x in w.tree
    ensures order[i] in w.tree
    ensures SM.StopWaiting(w, m, order[i..]) ==
            SM.StopWaiting(w, SM.StopService(w, m.(stopped := m.stopped - {order[i]}), order[i]), order[i + 1..])
  {
    assert order[i] in order && order[i..][0] == order[i] && order[i..][1..] == order[i + 1..];
  }

  function AfterDependent(w: SM.World, m: SM.Mgr, d: string): (r: SM.Mgr)
    requires SM.Sound(w) && SM.Fits(w, m) && d in w.tree
  {
    var m1 := SM.StopService(w, m, d);
    m1.(pending := m1.pending + {d})
  }

  lemma StopDependentsAt(w: SM.World, m: SM.Mgr, deps: seq<string>, i: nat)
    requires SM.Sound(w) && SM.Fits(w, m) && i < |deps| && forall d | d in deps :: d in w.tree
    ensures deps[i] in w.tree
    ensures SM.StopDependents(w, m, deps[i..]) ==
            SM.StopDependents(w, if IsRunning(m.ctl[deps[i]]) then AfterDependent(w, m, deps[i]) else m, deps[i + 1..])
  {
    assert deps[i] in deps && deps[i..][0] == deps[i] && deps[i..][1..] == deps[i + 1..];
  }

  lemma StartEachAt(w: SM.World, m: SM.Mgr, names: seq<string>, i: nat, reg: set<string>)
    requires SM.Sound(w) && SM.Fits(w, m) && i < |names| && forall x | x in names :: x in w.tree
    ensures names[i] in w.tree
    ensures SM.StartEach(w, m, names[i..], reg) == SM.StartEach(w, SM.StartService(w, m, names[i], reg), names[i + 1..], reg)
  {
    assert names[i] in names && names[i..][0] == names[i] && names[i..][1..] == names[i + 1..];
  }

  lemma StopEachAt(w: SM.World, m: SM.Mgr, names: seq<string>, i: nat)
    requires SM.Sound(w) && SM.Fits(w, m) && i < |names| && forall x | x in names :: x in w.tree
    ensures names[i] in w.tree
    ensures SM.StopEach(w, m, names[i..]) == SM.StopEach(w, SM.StopService(w, m, names[i]), names[i + 1..])
  {
    assert names[i] in names && names[i..][0] == names[i] && names[i..][1..] == names[i + 1..];
  }

  /** The members of a list that are in a set. */
  function Chosen(keys: seq<string>, chosen: set<string>): (r: seq<string>)
    ensures forall x :: x in r <==> x in keys && x in chosen
  {
    if keys == [] then [] else (if keys[0] in chosen then [keys[0]] else []) + Chosen(keys[1..], chosen)
  }

  function AfterRetry(w: SM.World, m: SM.Mgr, s: string, reg: set<string>): (r: SM.Mgr)
    requires SM.Sound(w) && SM.Fits(w, m) && s in w.tree
  {
    SM.StartService(w, m.(pending := m.pending - {s}), s, reg)
  }

  lemma RetryAt(w: SM.World, m: SM.Mgr, s: string, order: seq<string>, i: nat, reg: set<string>)
    requires SM.Sound(w) && SM.Fits(w, m) && i < |order| && forall x | x in order :: x in w.tree
    ensures order[i] in w.tree
    ensures SM.Retry(w, m, s, order[i..], reg) ==
            SM.Retry(w, if s in w.tree[order[i]] then AfterRetry(w, m, order[i], reg) else m, s, order[i + 1..], reg)
  {
    assert order[i] in order && order[i..][0] == order[i] && order[i..][1..] == order[i + 1..];
  }

  /** A process that ends, and a report: what the manager does after the controller's own slot. */
  lemma FinishedEvent(w: SM.World, m: SM.Mgr, s: string, order: seq<string>)
    requires SM.Sound(w) && SM.Fits(w, m) && s in w.tree && m.ctl[s].processRunning && SM.Lists(order, m.stopped)
    ensures SM.Apply(w, m, SM.ProcessFinished(s, order))
         == SM.ServiceStopped(w, SM.SetCtl(m, s, Finished(m.ctl[s])), s, order)
  {
  }

  lemma ReportEvent(w: SM.World, m: SM.Mgr, s: string, success: bool, order: seq<string>, reg: set<string>)
    requires SM.Sound(w) && SM.Fits(w, m) && s in w.tree && SM.Lists(order, m.pending)
    ensures SM.Apply(w, m, SM.ReportsInit(s, success, order, reg)) == SM.AfterReport(w, m, s, success, order, reg)
  {
  }

  class Manager {
    var tree: Tree
    var keys: seq<string>
    var services: map<string, Ctl>
    var pendingServices: set<string>
    var stoppedServices: set<string>
    var initialized: bool
    ghost var world: SM.World
    ghost var calls: seq<SM.Call>

    ghost function State(): SM.Mgr
      reads this
    {
      SM.Mgr(services, pendingServices, stoppedServices, calls)
    }

    ghost predicate Valid()
      reads this
    {
      && tree == world.tree && keys == world.keys
      && SM.Sound(world) && SM.Fits(world, State())
      && (!initialized ==> tree == map[] && calls == [])
    }

    constructor ()
      ensures Valid() && !initialized
    {
      tree, keys, services := map[], [], map[];
      pendingServices, stoppedServices := {}, {};
      initialized := false;
      world, calls := SM.World(map[], [], map[], 0), [];
    }

    /** Reads the services, drops those with bad dependencies and makes a controller for the rest.
        `finished` is false when the search for cycles does not end. */
    method BuildServiceMap(modules: seq<Module>, newModules: seq<Module>) returns (finished: bool)
      requires Valid()
      modifies this
      ensures old(initialized) ==> finished && Valid() && State() == old(State()) && world == old(world)
      ensures !old(initialized) && finished ==>
                Valid() && SM.Initial(world, State()) && tree == Cleaned(Declared(modules + newModules))
      ensures AllScansEnd(Declared(modules + newModules)) ==> finished
    {
      if initialized { return true; }
      var all := modules + newModules;
      var declared := Declare(all);
      var dependencyTree := new DependencyTree(declared);
      ghost var visited;
      finished, visited := dependencyTree.Cleanup();
      if !finished { return; }
      forall s | s in dependencyTree.tree ensures exists k | 0 <= k < |all| :: all[k].name == s { DeclaredNames(all, s); }
      var made := MakeControllers(all, dependencyTree.tree);
      CleanedIsSound(declared);
      ghost var ranks, bound := PickRank(dependencyTree.tree);
      var order := ToList(dependencyTree.tree.Keys);
      Adopt(dependencyTree.tree, order, made, SM.World(dependencyTree.tree, order, ranks, bound));
    }

    method Adopt(cleaned: Tree, order: seq<string>, made: map<string, Ctl>, ghost w: SM.World)
      requires Valid() && !initialized && made.Keys == cleaned.Keys && forall s | s in made :: made[s] == NEW_CTL
      requires SM.Sound(w) && w.tree == cleaned && w.keys == order
      modifies this
      ensures Valid() && SM.Initial(world, State()) && tree == cleaned
    {
      assert pendingServices == {} && stoppedServices == {};
      tree, keys, services, initialized := cleaned, order, made, true;
      world := w;
    }

    // ----- startService and stopService -----

    method StartController(name: string, reg: set<string>)
      requires Valid() && name in services
      modifies this`services, this`calls
      ensures Valid() && State() == SM.CallStart(old(State()), name, reg)
    {
      calls := calls + [SM.StartCall(name, SM.Ready(State()))];
      services := services[name := Start(services[name], name in reg)];
    }

    method StopController(name: string)
      requires Valid() && name in services
      modifies this`services, this`calls
      ensures Valid() && State() == SM.CallStop(old(State()), name)
    {
      calls := calls + [SM.StopCall(name, SM.Running(State()))];
      services := services[name := Stop(services[name])];
    }

    method StartService(name: string, reg: set<string>)
      requires Valid() && name in services
      modifies this`services, this`pendingServices, this`stoppedServices, this`calls
      ensures Valid() && State() == SM.StartService(world, old(State()), name, reg)
      decreases world.rank[name], 1
    {
      stoppedServices := stoppedServices - {name};
      if !IsRunning(services[name]) {
        var needToQueue := false;
        var deps := tree[name];
        ghost var begin := State();
        for i := 0 to |deps|
          invariant Valid()
          invariant SM.StartDeps(world, begin, name, deps, false, reg) ==
                    SM.StartDeps(world, State(), name, deps[i..], needToQueue, reg)
        {
          StartDepsAt(world, State(), name, deps, i, needToQueue, reg);
          needToQueue := StartDep(name, deps[i], needToQueue, reg);
        }
        if !needToQueue { StartController(name, reg); }
      }
    }

    /** The body of that loop. */
    method StartDep(name: string, depSc: string, queued: bool, reg: set<string>) returns (needToQueue: bool)
      requires Valid() && name in services && depSc in tree[name]
      modifies this`services, this`pendingServices, this`stoppedServices, this`calls
      ensures needToQueue == (queued || !old(services)[depSc].initialized)
      ensures Valid() && State() == AfterDep(world, old(State()), name, depSc, queued, reg)
      decreases world.rank[name], 0
    {
      needToQueue := queued;
      if !needToQueue && !services[depSc].initialized {
        pendingServices := pendingServices + {name};
        needToQueue := true;
      }
      if !IsRunning(services[depSc]) { StartService(depSc, reg); }
    }

    method StopService(name: string)
      requires Valid() && name in services
      modifies this`services, this`pendingServices, this`stoppedServices, this`calls
      ensures Valid() && State() == SM.StopService(world, old(State()), name)
      decreases world.top - world.rank[name], 1
    {
      pendingServices := pendingServices - {name};
      if IsRunning(services[name]) {
        var haveRunningRevDeps := false;
        var deps := ServicesDependingOn(tree, keys, name);
        ghost var begin := State();
        for i := 0 to |deps|
          invariant Valid()
          invariant SM.StopRevDeps(world, begin, name, deps, false) ==
                    SM.StopRevDeps(world, State(), name, deps[i..], haveRunningRevDeps)
        {
          StopRevDepsAt(world, State(), name, deps, i, haveRunningRevDeps);
          if IsRunning(services[deps[i]]) {
            haveRunningRevDeps := true;
            StopRevDep(name, deps[i]);
          }
        }
        if !haveRunningRevDeps {
          stoppedServices := stoppedServices - {name};
          StopController(name);
        }
      }
    }

    /** The body of that loop. */
    method StopRevDep(name: string, sc: string)
      requires Valid() && name in services && sc in services && name in tree[sc]
      modifies this`services, this`pendingServices, this`stoppedServices, this`calls
      ensures Valid() && State() == AfterRevDep(world, old(State()), name, sc)
      decreases world.top - world.rank[name], 0
    {
      stoppedServices := stoppedServices + {name};
      StopService(sc);
      pendingServices := pendingServices + {sc};
    }

    // ----- slots -----

    method SetController(name: string, c: Ctl)
      requires Valid() && name in services
      modifies this`services
      ensures Valid() && State() == SM.SetCtl(old(State()), name, c)
    {
      services := services[name := c];
    }

    /** serviceInitialized of one controller, and _k_serviceInitialized. `order` is the order in
        which the pending services were walked. */
    method ServiceInitialized(name: string, success: bool, reg: set<string>) returns (order: seq<string>)
      requires Valid() && name in services
      modifies this`services, this`pendingServices, this`stoppedServices, this`calls
      ensures SM.Lists(order, old(pendingServices))
      ensures Valid() && State() == SM.Apply(world, old(State()), SM.ReportsInit(name, success, order, reg))
    {
      ghost var begin := State();
      var emitted := success && !services[name].initialized;
      SetController(name, Reported(services[name], success));
      order := ToList(pendingServices);
      if emitted { RetryPending(name, order, reg); }
      ReportEvent(world, begin, name, success, order, reg);
    }

    /** The loop over the services that were pending. */
    method RetryPending(name: string, order: seq<string>, reg: set<string>)
      requires Valid() && forall x | x in order :: x in tree
      modifies this`services, this`pendingServices, this`stoppedServices, this`calls
      ensures Valid() && State() == SM.Retry(world, old(State()), name, order, reg)
    {
      ghost var begin := State();
      for i := 0 to |order|
        invariant Valid()
        invariant SM.Retry(world, begin, name, order, reg) == SM.Retry(world, State(), name, order[i..], reg)
      {
        RetryAt(world, State(), name, order, i, reg);
        if name in tree[order[i]] { RetryOne(order[i], reg); }
      }
    }

    /** The body of that loop. */
    method RetryOne(service: string, reg: set<string>)
      requires Valid() && service in services
      modifies this`services, this`pendingServices, this`stoppedServices, this`calls
      ensures Valid() && State() == AfterRetry(world, old(State()), service, reg)
    {
      pendingServices := pendingServices - {service};
      StartService(service, reg);
    }

    /** _k_serviceStopped. */
    method ServiceStopped(name: string) returns (order: seq<string>)
      requires Valid() && name in services
      modifies this`services, this`pendingServices, this`stoppedServices, this`calls
      ensures SM.Lists(order, old(stoppedServices))
      ensures Valid() && State() == SM.ServiceStopped(world, old(State()), name, order)
    {
      order := ToList(stoppedServices);
      ghost var begin := State();
      for i := 0 to |order|
        invariant Valid()
        invariant SM.StopWaiting(world, begin, order) == SM.StopWaiting(world, State(), order[i..])
      {
        StopWaitingAt(world, State(), order, i);
        stoppedServices := stoppedServices - {order[i]};
        StopService(order[i]);
      }
      StopDependents(name);
    }

    method StopDependents(name: string)
      requires Valid() && name in services
      modifies this`services, this`pendingServices, this`stoppedServices, this`calls
      ensures Valid()
      ensures State() == SM.StopDependents(world, old(State()), SM.RevDeps(tree, keys, name))
    {
      var deps := ServicesDependingOn(tree, keys, name);
      ghost var begin := State();
      for i := 0 to |deps|
        invariant Valid()
        invariant SM.StopDependents(world, begin, deps) == SM.StopDependents(world, State(), deps[i..])
      {
        StopDependentsAt(world, State(), deps, i);
        if IsRunning(services[deps[i]]) { StopDependent(deps[i]); }
      }
    }

    /** The body of that loop. */
    method StopDependent(dep: string)
      requires Valid() && dep in services
      modifies this`services, this`pendingServices, this`stoppedServices, this`calls
      ensures Valid() && State() == AfterDependent(world, old(State()), dep)
    {
      StopService(dep);
      pendingServices := pendingServices + {dep};
    }

    method ProcessFinished(name: string) returns (order: seq<string>)
      requires Valid() && name in services && services[name].processRunning
      modifies this`services, this`pendingServices, this`stoppedServices, this`calls
      ensures SM.Lists(order, old(stoppedServices))
      ensures Valid() && State() == SM.Apply(world, old(State()), SM.ProcessFinished(name, order))
    {
      ghost var begin := State();
      SetController(name, Finished(services[name]));
      order := ServiceStopped(name);
      FinishedEvent(world, begin, name, order);
    }

    function RunningServices(): set<string>
      reads this
      ensures RunningServices() == SM.Running(State())
    {
      set s | s in services && IsRunning(services[s])
    }

    /** ServiceManager::startService and stopService, which take a name. */
    method StartNamed(name: string, reg: set<string>) returns (found: bool)
      requires Valid()
      modifies this`services, this`pendingServices, this`stoppedServices, this`calls
      ensures found == (name in tree)
      ensures Valid() && State() == SM.Apply(world, old(State()), SM.StartRequest(name, reg))
    {
      found := name in services;
      if found { StartService(name, reg); }
    }

    method StopNamed(name: string) returns (found: bool)
      requires Valid()
      modifies this`services, this`pendingServices, this`stoppedServices, this`calls
      ensures found == (name in tree)
      ensures Valid() && State() == SM.Apply(world, old(State()), SM.StopRequest(name))
    {
      found := name in services;
      if found { StopService(name); }
    }

    // ----- all services -----

    /** startAllServices: builds the map the first time. */
    method StartAllServices(modules: seq<Module>, newModules: seq<Module>, autostart: set<string>, reg: set<string>)
        returns (finished: bool, names: seq<string>, ghost begin: SM.Mgr)
      requires Valid()
      modifies this
      ensures AllScansEnd(Declared(modules + newModules)) ==> finished
      ensures finished && old(initialized) ==> begin == old(State()) && world == old(world)
      ensures finished && !old(initialized) ==>
                Valid() && SM.Initial(world, begin) && tree == Cleaned(Declared(modules + newModules))
      ensures finished ==>
                && Valid() && (forall x :: x in names <==> x in tree && x in autostart) && SM.Fits(world, begin)
                && State() == SM.Apply(world, begin, SM.StartAllRequest(names, reg))
    {
      names := [];
      finished := BuildServiceMap(modules, newModules);
      begin := State();
      if finished { names := StartAutostarted(autostart, reg); }
    }

    /** The loop of startAllServices. */
    method StartAutostarted(autostart: set<string>, reg: set<string>) returns (names: seq<string>)
      requires Valid()
      modifies this`services, this`pendingServices, this`stoppedServices, this`calls
      ensures forall x :: x in names <==> x in tree && x in autostart
      ensures Valid() && State() == SM.Apply(world, old(State()), SM.StartAllRequest(names, reg))
    {
      names := Chosen(keys, autostart);
      ghost var begin := State();
      for i := 0 to |names|
        invariant Valid()
        invariant SM.StartEach(world, begin, names, reg) == SM.StartEach(world, State(), names[i..], reg)
      {
        StartEachAt(world, State(), names, i, reg);
        StartService(names[i], reg);
      }
    }

    method StopAllServices() returns (names: seq<string>)
      requires Valid()
      modifies this`services, this`pendingServices, this`stoppedServices, this`calls
      ensures SM.Lists(names, tree.Keys)
      ensures Valid() && State() == SM.Apply(world, old(State()), SM.StopAllRequest(names))
    {
      pendingServices := {};
      names := ToList(tree.Keys);
      ghost var begin := State();
      for i := 0 to |names|
        invariant Valid()
        invariant SM.StopEach(world, begin, names) == SM.StopEach(world, State(), names[i..])
      {
        StopEachAt(world, State(), names, i);
        StopService(names[i]);
      }
    }
  }
}
