/** The state of ServiceManager::Private and what its methods do to it
    (server/servicemanager.cpp:130-411), written as functions. */
module ServiceManager {
  import opened Counting
  import opened Dependencies
  import opened Controllers

  /** A call of start() or stop() on a controller, with what was true when it was made. */
  datatype Call = StartCall(name: string, ready: set<string>) | StopCall(name: string, running: set<string>)

  datatype Mgr = Mgr(ctl: map<string, Ctl>, pending: set<string>, stopped: set<string>, calls: seq<Call>)

  /** What does not change after buildServiceMap: the tree, the order in which its hash is walked
      and a rank that shows it has no cycles. */
  datatype World = World(tree: Tree, keys: seq<string>, rank: map<string, nat>, top: nat)

  predicate Sound(w: World) {
    && IsRank(w.tree, w.rank)
    && (forall s | s in w.keys :: s in w.tree) && (forall s | s in w.tree :: s in w.keys)
    && forall s | s in w.tree :: w.rank[s] <= w.top
  }

  /** Every service of the tree has its controller, and the two waiting sets hold such services. */
  predicate Fits(w: World, m: Mgr) {
    m.ctl.Keys == w.tree.Keys && m.pending <= w.tree.Keys && m.stopped <= w.tree.Keys
  }

  function Running(m: Mgr): set<string> {
    set s | s in m.ctl && IsRunning(m.ctl[s])
  }

  function Initialized(m: Mgr): set<string> {
    set s | s in m.ctl && m.ctl[s].initialized
  }

  /** Initialized, and not reset since. */
  function Ready(m: Mgr): set<string> {
    set s | s in m.ctl && m.ctl[s].initialized && m.ctl[s].state != StateStopped
  }

  /** DependencyTree::servicesDependingOn, in the order of the hash. */
  function RevDeps(tree: Tree, keys: seq<string>, service: string): (r: seq<string>)
    requires forall k | k in keys :: k in tree
    ensures forall x :: x in r <==> x in keys && service in tree[x]
  {
    if keys == [] then []
    else
      var rest := RevDeps(tree, keys[1..], service);
      if service in tree[keys[0]] then [keys[0]] + rest else rest
  }

  // ----- calls on a controller -----

  function CallStart(m: Mgr, s: string, reg: set<string>): Mgr
    requires s in m.ctl
  {
    m.(ctl := m.ctl[s := Start(m.ctl[s], s in reg)], calls := m.calls + [StartCall(s, Ready(m))])
  }

  function CallStop(m: Mgr, s: string): Mgr
    requires s in m.ctl
  {
    m.(ctl := m.ctl[s := Stop(m.ctl[s])], calls := m.calls + [StopCall(s, Running(m))])
  }

  // ----- startService -----

  function StartService(w: World, m: Mgr, s: string, reg: set<string>): (r: Mgr)
    requires Sound(w) && Fits(w, m) && s in w.tree
    ensures Fits(w, r)
    decreases w.rank[s], 1, 0
  {
    var m1 := m.(stopped := m.stopped - {s});
    if IsRunning(m1.ctl[s]) then m1
    else
      var (m2, queued) := StartDeps(w, m1, s, w.tree[s], false, reg);
      if queued then m2 else CallStart(m2, s, reg)
  }

  function StartDeps(w: World, m: Mgr, s: string, deps: seq<string>, queued: bool, reg: set<string>): (r: (Mgr, bool))
    requires Sound(w) && Fits(w, m) && s in w.tree && forall d | d in deps :: d in w.tree[s]
    ensures Fits(w, r.0)
    decreases w.rank[s], 0, |deps|
  {
    if deps == [] then (m, queued)
    else
      var d := deps[0];
      assert d in deps;
      var wait := !queued && !m.ctl[d].initialized;
      var m1 := if wait then m.(pending := m.pending + {s}) else m;
      var m2 := if IsRunning(m1.ctl[d]) then m1 else StartService(w, m1, d, reg);
      StartDeps(w, m2, s, deps[1..], queued || wait, reg)
  }

  // ----- stopService -----

  function StopService(w: World, m: Mgr, s: string): (r: Mgr)
    requires Sound(w) && Fits(w, m) && s in w.tree
    ensures Fits(w, r)
    decreases w.top - w.rank[s], 1, 0
  {
    var m1 := m.(pending := m.pending - {s});
    if !IsRunning(m1.ctl[s]) then m1
    else
      var (m2, waiting) := StopRevDeps(w, m1, s, RevDeps(w.tree, w.keys, s), false);
      if waiting then m2 else CallStop(m2.(stopped := m2.stopped - {s}), s)
  }

  function StopRevDeps(w: World, m: Mgr, s: string, deps: seq<string>, waiting: bool): (r: (Mgr, bool))
    requires Sound(w) && Fits(w, m) && s in w.tree && forall d | d in deps :: d in w.tree && s in w.tree[d]
    ensures Fits(w, r.0)
    decreases w.top - w.rank[s], 0, |deps|
  {
    if deps == [] then (m, waiting)
    else
      var d := deps[0];
      assert d in deps;
      if IsRunning(m.ctl[d]) then
        var m1 := StopService(w, m.(stopped := m.stopped + {s}), d);
        StopRevDeps(w, m1.(pending := m1.pending + {d}), s, deps[1..], true)
      else StopRevDeps(w, m, s, deps[1..], waiting)
  }

  // ----- the loops -----

  /** The loop of _k_serviceInitialized over the services that were pending. */
  function Retry(w: World, m: Mgr, s: string, order: seq<string>, reg: set<string>): (r: Mgr)
    requires Sound(w) && Fits(w, m) && forall x | x in order :: x in w.tree
    ensures Fits(w, r)
    decreases |order|
  {
    if order == [] then m
    else
      var x := order[0];
      assert x in order;
      var m1 := if s in w.tree[x] then StartService(w, m.(pending := m.pending - {x}), x, reg) else m;
      Retry(w, m1, s, order[1..], reg)
  }

  /** The first loop of _k_serviceStopped, over the services that waited to be stopped. */
  function StopWaiting(w: World, m: Mgr, order: seq<string>): (r: Mgr)
    requires Sound(w) && Fits(w, m) && forall x | x in order :: x in w.tree
    ensures Fits(w, r)
    decreases |order|
  {
    if order == [] then m
    else
      var x := order[0];
      assert x in order;
      StopWaiting(w, StopService(w, m.(stopped := m.stopped - {x}), x), order[1..])
  }

  /** Its second loop, over the services that depend on the one that stopped. */
  function StopDependents(w: World, m: Mgr, deps: seq<string>): (r: Mgr)
    requires Sound(w) && Fits(w, m) && forall d | d in deps :: d in w.tree
    ensures Fits(w, r)
    decreases |deps|
  {
    if deps == [] then m
    else
      var d := deps[0];
      assert d in deps;
      if IsRunning(m.ctl[d]) then
        var m1 := StopService(w, m, d);
        StopDependents(w, m1.(pending := m1.pending + {d}), deps[1..])
      else StopDependents(w, m, deps[1..])
  }

  function ServiceStopped(w: World, m: Mgr, s: string, order: seq<string>): (r: Mgr)
    requires Sound(w) && Fits(w, m) && forall x | x in order :: x in w.tree
    ensures Fits(w, r)
  {
    StopDependents(w, StopWaiting(w, m, order), RevDeps(w.tree, w.keys, s))
  }

  function StartEach(w: World, m: Mgr, names: seq<string>, reg: set<string>): (r: Mgr)
    requires Sound(w) && Fits(w, m) && forall x | x in names :: x in w.tree
    ensures Fits(w, r)
    decreases |names|
  {
    if names == [] then m
    else
      assert names[0] in names;
      StartEach(w, StartService(w, m, names[0], reg), names[1..], reg)
  }

  function StopEach(w: World, m: Mgr, names: seq<string>): (r: Mgr)
    requires Sound(w) && Fits(w, m) && forall x | x in names :: x in w.tree
    ensures Fits(w, r)
    decreases |names|
  {
    if names == [] then m
    else
      assert names[0] in names;
      StopEach(w, StopService(w, m, names[0]), names[1..])
  }

  function StopAll(w: World, m: Mgr, names: seq<string>): (r: Mgr)
    requires Sound(w) && Fits(w, m) && forall x | x in names :: x in w.tree
    ensures Fits(w, r)
  {
    StopEach(w, m.(pending := {}), names)
  }

  // ----- events -----

  /** Everything that can happen to the manager. `order` is the order in which a waiting set is
      walked, `reg` the services whose D-Bus name is taken at that moment. */
  datatype Event =
    | StartRequest(name: string, reg: set<string>)
    | StopRequest(name: string)
    | StartAllRequest(names: seq<string>, reg: set<string>)
    | StopAllRequest(names: seq<string>)
    | ReportsInit(name: string, success: bool, order: seq<string>, reg: set<string>)
    | ProcessFinished(name: string, order: seq<string>)
    | ProcessRelaunched(name: string)
    | ProcessFailed(name: string)
    | NameTaken(name: string)
    | NameGone(name: string, order: seq<string>, reg: set<string>)
    | InterfaceLost(name: string)
    | InterfaceMade(name: string)

  /** A list with exactly the members of a waiting set, each once. */
  predicate Lists(order: seq<string>, members: set<string>) {
    NoRepeats(order) && (forall x | x in order :: x in members) && forall x | x in members :: x in order
  }

  predicate Possible(w: World, m: Mgr, e: Event)
    requires Fits(w, m)
  {
    match e
    case StartRequest(name, _) => true
    case StopRequest(name) => true
    case StartAllRequest(names, _) => forall x | x in names :: x in w.tree
    case StopAllRequest(names) => Lists(names, w.tree.Keys)
    case ReportsInit(name, _, order, _) => name in w.tree && Lists(order, m.pending)
    case ProcessFinished(name, order) => name in w.tree && m.ctl[name].processRunning && Lists(order, m.stopped)
    case ProcessRelaunched(name) => name in w.tree && m.ctl[name].hasProcess
    case ProcessFailed(name) => name in w.tree && m.ctl[name].processRunning
    case NameTaken(name) => name in w.tree
    case NameGone(name, order, _) => name in w.tree && Lists(order, m.stopped)
    case InterfaceLost(name) => name in w.tree
    case InterfaceMade(name) => name in w.tree
  }

  /** A service reports success after its controller was reset. */
  predicate Late(m: Mgr, e: Event) {
    e.ReportsInit? && e.success && e.name in m.ctl && m.ctl[e.name].state == StateStopped
  }

  function SetCtl(m: Mgr, s: string, c: Ctl): Mgr {
    m.(ctl := m.ctl[s := c])
  }

  /** slotServiceInitialized of a controller, and _k_serviceInitialized if it is a change. */
  function AfterReport(w: World, m: Mgr, name: string, success: bool, order: seq<string>, reg: set<string>): (r: Mgr)
    requires Sound(w) && Fits(w, m) && name in w.tree && forall x | x in order :: x in w.tree
    ensures Fits(w, r)
  {
    var m1 := SetCtl(m, name, Reported(m.ctl[name], success));
    if success && !m.ctl[name].initialized then Retry(w, m1, name, order, reg) else m1
  }

  /** slotServiceUnregistered of a controller; serviceStopped is emitted before it does anything. */
  function AfterNameGone(w: World, m: Mgr, name: string, order: seq<string>, reg: set<string>): (r: Mgr)
    requires Sound(w) && Fits(w, m) && name in w.tree && forall x | x in order :: x in w.tree
    ensures Fits(w, r)
  {
    if !m.ctl[name].attached then m
    else
      var m1 := ServiceStopped(w, m, name, order);
      SetCtl(m1, name, AfterUnregistered(m1.ctl[name], name in reg))
  }

  function Apply(w: World, m: Mgr, e: Event): (r: Mgr)
    requires Sound(w) && Fits(w, m) && Possible(w, m, e)
    ensures Fits(w, r)
  {
    match e
    case StartRequest(name, reg) => if name in w.tree then StartService(w, m, name, reg) else m
    case StopRequest(name) => if name in w.tree then StopService(w, m, name) else m
    case StartAllRequest(names, reg) => StartEach(w, m, names, reg)
    case StopAllRequest(names) => StopAll(w, m, names)
    case ReportsInit(name, success, order, reg) => AfterReport(w, m, name, success, order, reg)
    case ProcessFinished(name, order) => ServiceStopped(w, SetCtl(m, name, Finished(m.ctl[name])), name, order)
    case ProcessRelaunched(name) => SetCtl(m, name, m.ctl[name].(processRunning := true))
    case ProcessFailed(name) => SetCtl(m, name, m.ctl[name].(processRunning := false))
    case NameTaken(name) => SetCtl(m, name, Registered(m.ctl[name]))
    case NameGone(name, order, reg) => AfterNameGone(w, m, name, order, reg)
    case InterfaceLost(name) => SetCtl(m, name, m.ctl[name].(hasInterface := false))
    case InterfaceMade(name) => SetCtl(m, name, WithInterface(m.ctl[name]))
  }

  /** The state after a run of events from `m`, each of them possible when it happens. */
  ghost predicate IsRun(w: World, states: seq<Mgr>, events: seq<Event>)
    requires Sound(w)
  {
    && |states| == |events| + 1
    && forall i | 0 <= i < |events| ::
         Fits(w, states[i]) && Possible(w, states[i], events[i]) && states[i + 1] == Apply(w, states[i], events[i])
  }

  /** Before anything happened: no service runs and nothing waits. */
  predicate Initial(w: World, m: Mgr) {
    Fits(w, m) && (forall s | s in m.ctl :: m.ctl[s] == NEW_CTL) && m.pending == {} && m.stopped == {} && m.calls == []
  }
}
