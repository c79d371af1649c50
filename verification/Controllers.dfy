/** ServiceController: one service as the server sees it (server/servicecontroller.cpp:42-341). */
module Controllers {
  datatype State = StateStopped | StateStarting | StateRunning | StateStopping

  /** The fields of ServiceController::Private, with the process and the D-Bus interface reduced to
      whether they exist and whether the process runs. */
  datatype Ctl = Ctl(state: State, attached: bool, started: bool, initialized: bool, failed: bool,
                     hasProcess: bool, processRunning: bool, hasInterface: bool)

  const NEW_CTL := Ctl(StateStopped, false, false, false, false, false, false, false)

  predicate IsRunning(c: Ctl) {
    c.attached || (c.hasProcess && c.processRunning)
  }

  function Reset(c: Ctl): Ctl {
    c.(state := StateStopped, attached := false, started := false, initialized := false, failed := false,
       hasInterface := false)
  }

  function WithInterface(c: Ctl): Ctl {
    if !c.attached && !c.started then c else c.(hasInterface := true)
  }

  /** `registered`: somebody already owns the D-Bus name of the service. */
  function Start(c: Ctl, registered: bool): Ctl {
    if c.state != StateStopped then c
    else if registered then WithInterface(Reset(c).(started := true, attached := true, state := StateRunning))
    else Reset(c).(started := true, state := StateStarting, hasProcess := true, processRunning := true)
  }

  function Stop(c: Ctl): Ctl {
    if c.state == StateRunning || c.state == StateStarting
    then c.(attached := false, started := false, state := StateStopping)
    else c
  }

  /** The process ended; the slot resets the rest. */
  function Finished(c: Ctl): Ctl {
    Reset(c.(processRunning := false))
  }

  function Registered(c: Ctl): Ctl {
    WithInterface(c.(state := StateRunning, attached := c.attached || !c.hasProcess || !c.processRunning))
  }

  /** What slotServiceUnregistered does after serviceStopped was emitted. */
  function AfterUnregistered(c: Ctl, registered: bool): Ctl {
    if c.started then Start(c, registered) else Reset(c)
  }

  function Reported(c: Ctl, success: bool): Ctl {
    if c.initialized then c else if success then c.(initialized := true) else c.(failed := true)
  }

  // ----- what every slot keeps -----

  /** A stopped controller claims nothing, and only a running one is attached. */
  predicate WellKept(c: Ctl) {
    && (c.state == StateStopped ==> !c.attached && !c.started && !c.initialized && !c.hasInterface)
    && (c.attached ==> c.state == StateRunning)
    && (c.processRunning ==> c.hasProcess)
  }

  lemma SlotsKeepWellKept(c: Ctl, registered: bool, success: bool)
    requires WellKept(c)
    ensures WellKept(Start(c, registered)) && WellKept(Stop(c)) && WellKept(Finished(c))
    ensures WellKept(Registered(c)) && WellKept(AfterUnregistered(c, registered))
    ensures !(success && c.state == StateStopped) ==> WellKept(Reported(c, success))
    ensures c.state != StateStopped ==> WellKept(WithInterface(c))
  {
  }

  /** start() takes no initialized flag away, and afterwards the service runs if it was stopped. */
  lemma StartShape(c: Ctl, registered: bool)
    requires WellKept(c)
    ensures Start(c, registered).initialized == c.initialized
    ensures c.state == StateStopped || IsRunning(c) ==> IsRunning(Start(c, registered))
    ensures Start(c, registered).state != StateStopped
  {
  }

  // ----- reports -----

  /** What becomes of a controller that is told of one report after the other. */
  function ReportedAll(c: Ctl, reports: seq<bool>): Ctl
    decreases |reports|
  {
    if reports == [] then c else ReportedAll(Reported(c, reports[0]), reports[1..])
  }

  /** The first success counts, whatever comes before or after it; a failure is remembered exactly if
      no success came before it. Nothing else changes. */
  lemma {:induction false} ReportsDecide(c: Ctl, reports: seq<bool>)
    ensures ReportedAll(c, reports) ==
            c.(initialized := c.initialized || true in reports,
               failed := c.failed || (!c.initialized && reports != [] && !reports[0]))
    decreases |reports|
  {
    if reports != [] {
      ReportsDecide(Reported(c, reports[0]), reports[1..]);
      assert true in reports <==> reports[0] || true in reports[1..];
    }
  }

  // ----- the class -----

  class ServiceController {
    var currentState: State
    var attached: bool
    var started: bool
    var initialized: bool
    var failedToInitialize: bool
    var hasProcess: bool
    var processRunning: bool
    var hasInterface: bool

    function Value(): Ctl
      reads this
    {
      Ctl(currentState, attached, started, initialized, failedToInitialize, hasProcess, processRunning, hasInterface)
    }

    constructor ()
      ensures Value() == NEW_CTL
    {
      currentState := StateStopped;
      attached, started, initialized, failedToInitialize := false, false, false, false;
      hasProcess, processRunning, hasInterface := false, false, false;
    }

    predicate Runs()
      reads this
      ensures Runs() == IsRunning(Value())
    {
      attached || (hasProcess && processRunning)
    }

    method ResetFields()
      modifies this
      ensures Value() == Reset(old(Value()))
    {
      initialized := false;
      attached := false;
      started := false;
      currentState := StateStopped;
      failedToInitialize := false;
      hasInterface := false;
    }

    method CreateServiceControlInterface()
      modifies this
      ensures Value() == WithInterface(old(Value()))
    {
      if !attached && !started { return; }
      hasInterface := true;
    }

    method StartService(registered: bool)
      modifies this
      ensures Value() == Start(old(Value()), registered)
    {
      if currentState == StateStopped {
        ResetFields();
        started := true;
        if registered {
          attached := true;
          currentState := StateRunning;
          CreateServiceControlInterface();
        } else {
          currentState := StateStarting;
          if !hasProcess { hasProcess := true; }
          processRunning := true;
        }
      }
    }

    method StopService()
      modifies this
      ensures Value() == Stop(old(Value()))
    {
      if currentState == StateRunning || currentState == StateStarting {
        attached := false;
        started := false;
        currentState := StateStopping;
      }
    }

    method SlotProcessFinished()
      modifies this
      ensures Value() == Finished(old(Value()))
    {
      processRunning := false;
      ResetFields();
    }

    method SlotServiceRegistered()
      modifies this
      ensures Value() == Registered(old(Value()))
    {
      currentState := StateRunning;
      if !hasProcess || !processRunning { attached := true; }
      CreateServiceControlInterface();
    }

    method SlotServiceUnregistered(registered: bool)
      modifies this
      ensures Value() == AfterUnregistered(old(Value()), registered)
    {
      if started { StartService(registered); } else { ResetFields(); }
    }

    method SlotServiceInitialized(success: bool) returns (emitted: bool)
      modifies this
      ensures Value() == Reported(old(Value()), success)
      ensures emitted == (success && !old(initialized))
    {
      emitted := false;
      if !initialized {
        if success {
          initialized := true;
          emitted := true;
        } else {
          failedToInitialize := true;
        }
      }
    }
  }
}
