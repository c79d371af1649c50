/** ProcessControl: a process that is restarted when it crashes (server/processcontrol.cpp:45-114). */
module Processes {
  datatype CrashPolicy = StopOnCrash | RestartOnCrash

  /** `launches` counts the calls of QProcess::start. */
  datatype Process = Process(policy: CrashPolicy, failedToStart: bool, crashCount: int, launches: nat)

  datatype Event = Crashes | Exits | Fails | SetsPolicy(policy: CrashPolicy)

  function Launched(policy: CrashPolicy, maxCrash: int): Process {
    Process(policy, false, maxCrash, 1)
  }

  function Step(p: Process, e: Event): Process {
    match e
    case Fails => p.(failedToStart := true)
    case SetsPolicy(policy) => p.(policy := policy)
    case Exits => p
    case Crashes =>
      if p.policy == StopOnCrash || p.failedToStart then p
      else
        var left := p.(crashCount := p.crashCount - 1);
        if left.crashCount >= 0 then left.(launches := left.launches + 1) else left
  }

  function Run(p: Process, events: seq<Event>): Process {
    if events == [] then p else Step(Run(p, events[..|events| - 1]), events[|events| - 1])
  }

  /** The crashes that find the process neither failed nor told to stay down. */
  function Counted(events: seq<Event>, policy: CrashPolicy): nat {
    if events == [] then 0
    else
      var n := |events| - 1;
      Counted(events[..n], policy) +
      (if events[n] == Crashes && Fails !in events[..n] && PolicyAfter(events[..n], policy) == RestartOnCrash then 1 else 0)
  }

  function PolicyAfter(events: seq<Event>, policy: CrashPolicy): CrashPolicy {
    if events == [] then policy
    else
      var last := events[|events| - 1];
      if last.SetsPolicy? then last.policy else PolicyAfter(events[..|events| - 1], policy)
  }

  /** However it goes, the process is relaunched for each counted crash until the budget is used up,
      and for nothing else. One error of any other kind than a crash ends the restarting for good. */
  lemma {:induction false} RestartBudget(policy: CrashPolicy, maxCrash: nat, events: seq<Event>)
    ensures var p := Run(Launched(policy, maxCrash), events);
            && p.launches == 1 + (if Counted(events, policy) < maxCrash then Counted(events, policy) else maxCrash)
            && p.policy == PolicyAfter(events, policy) && p.failedToStart == (Fails in events)
            && p.crashCount == maxCrash - Counted(events, policy)
  {
    if events != [] {
      var n := |events| - 1;
      RestartBudget(policy, maxCrash, events[..n]);
      assert forall e :: e in events <==> e in events[..n] || e == events[n];
    }
  }

  class ProcessControl {
    var mPolicy: CrashPolicy
    var mFailedToStart: bool
    var mCrashCount: int
    ghost var launches: nat

    ghost function Value(): Process
      reads this
    {
      Process(mPolicy, mFailedToStart, mCrashCount, launches)
    }

    constructor ()
      ensures launches == 0
    {
      mPolicy, mFailedToStart, mCrashCount, launches := RestartOnCrash, false, 0, 0;
    }

    method Relaunch()
      modifies this`launches
      ensures launches == old(launches) + 1
    {
      launches := launches + 1;
    }

    method Start(policy: CrashPolicy, maxCrash: int)
      modifies this
      ensures Value() == Launched(policy, maxCrash).(launches := old(launches) + 1)
    {
      mFailedToStart := false;
      mPolicy := policy;
      mCrashCount := maxCrash;
      Relaunch();
    }

    method SetCrashPolicy(policy: CrashPolicy)
      modifies this
      ensures Value() == Step(old(Value()), SetsPolicy(policy))
    {
      mPolicy := policy;
    }

    method SlotError(crashed: bool)
      modifies this
      ensures Value() == if crashed then old(Value()) else Step(old(Value()), Fails)
    {
      if !crashed { mFailedToStart := true; }
    }

    method SlotFinished(crashed: bool)
      modifies this
      ensures Value() == Step(old(Value()), if crashed then Crashes else Exits)
    {
      if crashed && mPolicy == RestartOnCrash {
        if !mFailedToStart {
          mCrashCount := mCrashCount - 1;
          if mCrashCount >= 0 { Relaunch(); }
        }
      }
    }
  }
}
