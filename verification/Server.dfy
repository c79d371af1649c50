/** Server: the global state of Nepomuk (server/nepomukserver.cpp:86-207), over the runs of the
    service manager. */
module Server {
  import opened ServiceManager
  import opened ServiceStartup
  import opened ServiceShutdown
  import ManagerMethods

  datatype ServerState = StateDisabled | StateEnabled | StateDisabling | StateEnabling

  predicate IsEnabled(s: ServerState) {
    s == StateEnabled || s == StateEnabling
  }

  function OnStopped(s: ServerState, running: set<string>): ServerState {
    if s == StateDisabling && running == {} then StateDisabled else s
  }

  function OnInitialized(s: ServerState, pending: set<string>): ServerState {
    if s == StateEnabling && pending == {} then StateEnabled else s
  }

  /** The signals an event sends to the server: serviceStopped comes before the manager reacts,
      serviceInitialized after. */
  function OnEvent(w: World, s: ServerState, m: Mgr, e: Event): ServerState
    requires Sound(w) && Fits(w, m) && Possible(w, m, e)
  {
    match e
    case ProcessFinished(name, _) => OnStopped(s, Running(m) - {name})
    case ReportsInit(name, success, _, _) =>
      if success && !m.ctl[name].initialized then OnInitialized(s, Apply(w, m, e).pending) else s
    case NameGone(name, _, _) => if m.ctl[name].attached then OnStopped(s, Running(m)) else s
    case _ => s
  }

  ghost predicate Follows(w: World, server: seq<ServerState>, states: seq<Mgr>, events: seq<Event>)
    requires Sound(w) && IsRun(w, states, events)
  {
    |server| == |states| && forall i | 0 <= i < |events| :: server[i + 1] == OnEvent(w, server[i], states[i], events[i])
  }

  // ----- disabling -----

  lemma {:induction false} DisablingRun(w: World, server: seq<ServerState>, states: seq<Mgr>, events: seq<Event>)
    requires Sound(w) && IsRun(w, states, events) && AllOwn(w, states[0]) && AllHeld(w, states[0], {})
    requires forall i | 0 <= i < |events| :: ShutdownEvent(states[i], events[i])
    requires Follows(w, server, states, events) && server[0] == StateDisabling
    ensures AllOwn(w, states[|events|]) && AllHeld(w, states[|events|], {})
    ensures Running(states[|events|]) <= Running(states[0])
    ensures server[|events|] ==
            if Running(states[|events|]) == {} && Running(states[0]) != {} then StateDisabled else StateDisabling
    decreases |events|
  {
    if events != [] {
      var n := |events| - 1;
      assert IsRun(w, states[..|events|], events[..n]);
      DisablingRun(w, server[..|events|], states[..|events|], events[..n]);
      ShutdownStep(w, states[n], events[n]);
      var e := events[n];
      if e.ProcessFinished? {
        assert e.name in Running(states[n]) by { assert OwnProcess(states[n].ctl[e.name]); }
      }
      if e.NameGone? { assert OwnProcess(states[n].ctl[e.name]); }
    }
  }

  /** From the moment the server tells all services to stop, it reaches the disabled state exactly
      when the last service is down; if none ran at that moment, it stays in between for good. */
  lemma DisabledWhenAllDown(w: World, before: seq<Mgr>, earlier: seq<Event>,
                            server: seq<ServerState>, states: seq<Mgr>, events: seq<Event>)
    requires Sound(w) && IsRun(w, before, earlier) && Initial(w, before[0])
    requires forall i | 0 <= i < |earlier| :: OwnEvent(before[i], earlier[i])
    requires IsRun(w, states, events) && states[0] == before[|earlier|]
    requires forall i | 0 <= i < |events| :: ShutdownEvent(states[i], events[i])
    requires Follows(w, server, states, events) && server[0] == StateDisabling
    ensures server[|events|] == StateDisabled <==> Running(states[|events|]) == {} && Running(states[0]) != {}
  {
    RunOwn(w, before, earlier);
    DisablingRun(w, server, states, events);
  }

  // ----- enabling -----

  lemma EnabledOnEvent(w: World, m: Mgr, e: Event)
    requires Sound(w) && Fits(w, m) && Possible(w, m, e)
    requires OnEvent(w, StateEnabling, m, e) == StateEnabled
    ensures Apply(w, m, e).pending == {}
  {
  }

  /** When the server says it is enabled, every service that was asked for runs. It need not be
      initialized. */
  lemma EnabledMeansAllRun(w: World, server: seq<ServerState>, states: seq<Mgr>, events: seq<Event>)
    requires Sound(w) && IsRun(w, states, events) && Initial(w, states[0]) && events != []
    requires forall i | 0 <= i < |events| :: StartupEvent(states[i], events[i])
    requires Follows(w, server, states, events)
    requires server[|events| - 1] == StateEnabling && server[|events|] == StateEnabled
    ensures forall i, s | 0 <= i < |events| && s in w.tree && Asks(events[i], s) :: s in Running(states[|events|])
  {
    RunBoots(w, states, events);
    var n := |events| - 1;
    EnabledOnEvent(w, states[n], events[n]);
    forall i, s | 0 <= i < |events| && s in w.tree && Asks(events[i], s) ensures s in Running(states[|events|]) {
      assert Up(states[|events|], s);
    }
  }

  /** And it does say so: with the report of the last running service, whatever the order of events. */
  lemma EnabledWhenAllReported(w: World, server: seq<ServerState>, states: seq<Mgr>, events: seq<Event>)
    requires Sound(w) && IsRun(w, states, events) && Initial(w, states[0]) && events != []
    requires forall i | 0 <= i < |events| :: StartupEvent(states[i], events[i])
    requires Follows(w, server, states, events) && server[|events| - 1] == StateEnabling
    requires var n := |events| - 1;
             events[n].ReportsInit? && events[n].success && !states[n].ctl[events[n].name].initialized
    requires forall s | s in Running(states[|events|]) :: s in Initialized(states[|events|])
    ensures server[|events|] == StateEnabled
  {
    StartupProgress(w, states, events);
  }

  // ----- the class -----

  class Server {
    var currentState: ServerState
    const noServices: bool
    const manager: ManagerMethods.Manager

    constructor (noServices: bool, manager: ManagerMethods.Manager)
      ensures currentState == StateDisabled && this.noServices == noServices && this.manager == manager
    {
      currentState, this.noServices, this.manager := StateDisabled, noServices, manager;
    }

    /** enableNepomuk( true ). */
    method EnableNepomuk(modules: seq<ManagerMethods.Module>, newModules: seq<ManagerMethods.Module>,
                         autostart: set<string>, reg: set<string>)
        returns (finished: bool, names: seq<string>, ghost begin: Mgr)
      requires manager.Valid()
      modifies this, manager
      ensures IsEnabled(old(currentState)) ==> currentState == old(currentState)
      ensures !IsEnabled(old(currentState)) ==> currentState == StateEnabling
      ensures IsEnabled(old(currentState)) || noServices ==>
                finished && manager.Valid() && manager.world == old(manager.world) && manager.State() == old(manager.State())
      ensures !IsEnabled(old(currentState)) && !noServices && finished ==>
                && manager.Valid() && (forall x :: x in names <==> x in manager.tree && x in autostart)
                && Fits(manager.world, begin) && manager.State() == Apply(manager.world, begin, StartAllRequest(names, reg))
    {
      finished, names, begin := true, [], manager.State();
      if !IsEnabled(currentState) {
        currentState := StateEnabling;
        if !noServices {
          finished, names, begin := manager.StartAllServices(modules, newModules, autostart, reg);
        }
      }
    }

    /** quit: stops the services first if any runs, and leaves at once otherwise. */
    method Quit() returns (now: bool, listed: seq<string>)
      requires manager.Valid()
      modifies this, manager
      ensures manager.Valid() && manager.world == old(manager.world)
      ensures now <==> !IsEnabled(old(currentState)) || Running(old(manager.State())) == {}
      ensures now ==> currentState == old(currentState) && manager.State() == old(manager.State())
      ensures !now ==>
                && currentState == StateDisabling && Lists(listed, manager.tree.Keys)
                && manager.State() == Apply(manager.world, old(manager.State()), StopAllRequest(listed))
    {
      listed := [];
      now := !IsEnabled(currentState) || manager.RunningServices() == {};
      if !now { listed := DisableNepomuk(); }
    }

    /** Switching off, which is what stops services. `listed` is the order they were walked in. */
    method DisableNepomuk() returns (listed: seq<string>)
      requires manager.Valid()
      modifies this, manager
      ensures manager.Valid() && manager.world == old(manager.world)
      ensures !IsEnabled(old(currentState)) ==>
                currentState == old(currentState) && manager.State() == old(manager.State())
      ensures IsEnabled(old(currentState)) ==>
                && currentState == StateDisabling && Lists(listed, manager.tree.Keys)
                && manager.State() == Apply(manager.world, old(manager.State()), StopAllRequest(listed))
    {
      listed := [];
      if IsEnabled(currentState) {
        currentState := StateDisabling;
        listed := manager.StopAllServices();
      }
    }

    method SlotServiceStopped(running: set<string>) returns (disabled: bool)
      modifies this
      ensures currentState == OnStopped(old(currentState), running)
      ensures disabled <==> old(currentState) == StateDisabling && running == {}
    {
      disabled := currentState == StateDisabling && running == {};
      if disabled { currentState := StateDisabled; }
    }

    method SlotServiceInitialized(pending: set<string>) returns (enabled: bool)
      modifies this
      ensures currentState == OnInitialized(old(currentState), pending)
      ensures enabled <==> old(currentState) == StateEnabling && pending == {}
    {
      enabled := currentState == StateEnabling && pending == {};
      if enabled { currentState := StateEnabled; }
    }
  }
}
