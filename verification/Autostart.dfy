/**
The seam every poster goes through after it has queued a message: resume a paused mission, start a
stopped daemon, and trigger a tick when the mission is idle. The decision to trigger reads only
runtime_status; what it is relied on for is that the lifecycle is running.
*/
module Autostart {
  import opened Prelude
  import opened Lifecycles
  import opened TickPolicy

  datatype Warning = StartFailed | WaitingForCapability | InError | Queued | NotTriggered

  /** Which of the guarded steps raise on this call. */
  datatype Faults = Faults(resume: bool, start: bool, sync: bool, forcedStart: bool)

  const NO_FAULTS := Faults(false, false, false, false)

  predicate Resumable(s: Status) {
    s in {Known(PausedClarification), Known(PausedWaitingCapability), Known(PausedIdle)}
  }

  /** The lifecycle values that starting the daemon synchronises to running. */
  predicate Synced(s: Status) {
    s in {Known(Stopped), Known(Error), Other("draft"), Other("")}
  }

  // ---------------------------------------------------------------- the daemon's own writes

  /** What the daemon does to the row by itself: it writes runtime_status and leaves the lifecycle. */
  function MarkError(row: Row): Row {
    row.(runtime := Failed)
  }

  function DaemonStop(row: Row): Row {
    row.(runtime := Down)
  }

  /** mission_daemon.start for a mission that this process has not registered yet. */
  function DaemonStart(row: Row, syncFails: bool): Row {
    if Synced(row.lifecycle) && !syncFails then Written(Running, None) else row.(runtime := Up)
  }

  /** The daemon writes runtime_status by itself; exactly when the columns still agree afterwards. */
  lemma DaemonWritesKeepCoherentIff(row: Row, syncFails: bool)
    requires Coherent(row)
    ensures Coherent(MarkError(row)) <==> row.lifecycle == Known(Error)
    ensures Coherent(DaemonStop(row)) <==> row.lifecycle == Known(Stopped)
    ensures Coherent(DaemonStart(row, syncFails)) <==> IsAlive(row.lifecycle.state) || !syncFails
  {
  }

  // ---------------------------------------------------------------- the seam

  /** The row once a paused mission has been resumed, when resuming works. */
  function Resumed(row: Row, faults: Faults): Row {
    if Resumable(row.lifecycle) && !faults.resume then Written(Running, None) else row
  }

  predicate NeedsStart(autoStart: bool, row: Row) {
    && autoStart && row.runtime != Up
    && row.lifecycle != Known(PausedWaitingCapability) && row.lifecycle != Known(Error)
  }

  /** The row once the daemon has been started, and the lifecycle forced up if it still is not running. */
  function Started(row: Row, registered: bool, faults: Faults): Row {
    var after := if registered then row else DaemonStart(row, faults.sync);
    if after.lifecycle != Known(Running) && !faults.forcedStart then Written(Running, None) else after
  }

  /** Where one call leaves the row. */
  function Autostarted(row: Row, registered: bool, autoStart: bool, faults: Faults): Row {
    var resumed := Resumed(row, faults);
    if !NeedsStart(autoStart, resumed) then resumed
    else if !registered && faults.start then MarkError(resumed)
    else Started(resumed, registered, faults)
  }

  /** A mission row together with the process-wide table of registered daemons. */
  class Host {
    const mission: Mission
    var registered: bool

    constructor (mission: Mission)
      ensures this.mission == mission && !registered
    {
      this.mission, registered := mission, false;
    }

    /** mission_daemon.start; the answer is false when it raised. */
    method StartDaemon(faults: Faults) returns (ok: bool)
      modifies this`registered, mission
      ensures old(registered) ==> ok && registered && mission.GetRow() == old(mission.GetRow())
      ensures !old(registered) ==> ok == !faults.start && registered == ok
      ensures !old(registered) && ok ==> mission.GetRow() == DaemonStart(old(mission.GetRow()), faults.sync)
      ensures !old(registered) && !ok ==> mission.GetRow() == MarkError(old(mission.GetRow()))
    {
      if registered {
        return true;
      }
      registered := true;
      if faults.start {
        registered := false;
        mission.runtimeStatus := Failed;
        return false;
      }
      mission.runtimeStatus := Up;
      if Synced(mission.lifecycleStatus) && !faults.sync {
        var r := mission.Transit(Start, None, true);
      }
      return true;
    }

    /** The seam itself. The locals status and runtime are its copies of the row's columns. */
    method AutostartAndTrigger(autoTrigger: bool, autoStart: bool, ticking: bool, faults: Faults)
      returns (started: bool, triggered: bool, warnings: seq<Warning>, status: Status)
      modifies this`registered, mission
      ensures mission.GetRow() == Autostarted(old(mission.GetRow()), old(registered), autoStart, faults)
      ensures status == mission.lifecycleStatus
      ensures triggered <==> autoTrigger && !ticking && mission.runtimeStatus == Up
      ensures started ==> registered
      ensures StartFailed in warnings ==> !registered && mission.runtimeStatus == Failed && !started
      ensures WaitingForCapability in warnings <==> status == Known(PausedWaitingCapability)
      ensures InError in warnings <==> status == Known(Error)
      ensures autoTrigger && !triggered ==>
                warnings != [] && warnings[|warnings| - 1] == if ticking then Queued else NotTriggered
      ensures triggered ==> warnings == [] || warnings == [WaitingForCapability] || warnings == [InError]
    {
      started, triggered, warnings := false, false, [];
      status := mission.lifecycleStatus;
      var runtime := mission.runtimeStatus;
      if Resumable(status) && !faults.resume {
        var r := mission.Transit(Resume, None, true);
        status, runtime := mission.lifecycleStatus, mission.runtimeStatus;
      }
      if autoStart && runtime != Up && status != Known(PausedWaitingCapability) && status != Known(Error) {
        var ok := StartDaemon(faults);
        if ok {
          if mission.lifecycleStatus != Known(Running) && !faults.forcedStart {
            var r := mission.Transit(Start, None, true);
          }
          started := true;
          status, runtime := mission.lifecycleStatus, mission.runtimeStatus;
        } else {
          warnings := [StartFailed];
        }
      } else if status == Known(PausedWaitingCapability) {
        warnings := [WaitingForCapability];
      } else if status == Known(Error) {
        warnings := [InError];
      }
      if autoTrigger && ShouldTriggerNow(ticking, runtime) {
        triggered := true;
      } else if autoTrigger && ticking {
        warnings := warnings + [Queued];
      } else if autoTrigger && runtime != Up {
        warnings := warnings + [NotTriggered];
      }
    }

    /** The end of post_user_message_and_trigger, when none of its steps fails. */
    method Post(autoTrigger: bool, ticking: bool) returns (triggered: bool)
      requires RuntimeBacked(mission.GetRow())
      modifies this`registered, mission
      ensures triggered <==> autoTrigger && !ticking && CanRun(old(mission.GetRow()), old(registered))
      ensures triggered ==> mission.lifecycleStatus == Known(Running)
    {
      hide CanRun, RuntimeBacked;
      PostStartsIff(mission.GetRow(), registered);
      var started, warnings, status;
      started, triggered, warnings, status := AutostartAndTrigger(autoTrigger, true, ticking, NO_FAULTS);
    }
  }

  // ---------------------------------------------------------------- what a post is for

  /**
  The missions that one post with automatic start brings to work: all but those in error, and those
  whose daemon is registered and lifecycle running while runtime says otherwise.
  */
  predicate CanRun(row: Row, registered: bool) {
    row.lifecycle != Known(Error) && !(registered && row.lifecycle == Known(Running) && row.runtime != Up)
  }

  /**
  A post whose steps all succeed leaves the mission running with runtime up exactly when it can run
  at all. Without automatic start that takes a mission that runs already, or that is paused.
  */
  lemma PostStartsIff(row: Row, registered: bool)
    requires RuntimeBacked(row)
    ensures var after := Autostarted(row, registered, true, NO_FAULTS);
            && (after.lifecycle == Known(Running) && after.runtime == Up <==> CanRun(row, registered))
            && (after.runtime == Up <==> CanRun(row, registered))
            && (!CanRun(row, registered) ==> after == row)
    ensures var after := Autostarted(row, registered, false, NO_FAULTS);
            if row.lifecycle in {Known(PausedClarification), Known(PausedWaitingCapability), Known(PausedIdle)}
            then after == Row(Known(Running), Up, None) else after == row
  {
  }

  /** A mission never started before: stopped, or still a draft. */
  lemma NewMissionStarts(runtime: Runtime)
    requires runtime != Up
    ensures Autostarted(INITIAL_ROW, false, true, NO_FAULTS) == Row(Known(Running), Up, None)
    ensures Autostarted(Row(Other("draft"), runtime, None), false, true, NO_FAULTS) == Row(Known(Running), Up, None)
  {
  }

  /** Text outside the enumeration that starting the daemon moves on by itself. */
  lemma SyncedTextIff(text: string, runtime: Runtime)
    ensures var after := DaemonStart(Row(Other(text), runtime, None), false);
            && after.runtime == Up
            && after.lifecycle == if text == "draft" || text == "" then Known(Running) else Other(text)
  {
  }

  // ---------------------------------------------------------------- what triggering is relied on for

  /**
  The condition, readable before the call, under which a tick that the call triggers finds the
  lifecycle running.
  */
  predicate WillRun(row: Row, registered: bool, autoStart: bool, faults: Faults) {
    || row.lifecycle == Known(Running)
    || (Resumable(row.lifecycle) && !faults.resume)
    || (NeedsStart(autoStart, row) && (!faults.forcedStart || (!registered && Synced(row.lifecycle) && !faults.sync)))
  }

  /** If the call leaves runtime up, so that it may trigger, the lifecycle is running exactly then. */
  lemma TriggeredRunsIff(row: Row, registered: bool, autoStart: bool, faults: Faults)
    ensures var after := Autostarted(row, registered, autoStart, faults);
            after.runtime == Up ==>
              (after.lifecycle == Known(Running) <==> WillRun(row, registered, autoStart, faults))
  {
  }

  /**
  The half of coherence that survives the daemon's direct writes: runtime is up only while the
  lifecycle is alive. (The daemon writes runtime down or failed under any lifecycle.)
  */
  ghost predicate RuntimeBacked(row: Row) {
    && row.lifecycle.Known?
    && row.lifecycle.state != Starting && row.lifecycle.state != Stopping
    && (row.runtime == Up ==> IsAlive(row.lifecycle.state))
  }

  /**
  Every writer of the three columns: the service, the daemon, the seam with all its steps
  succeeding, and the three places that write past the service.
  */
  datatype Event =
    | Service(request: Request)
    | DaemonStarts(registered: bool)
    | DaemonStops
    | DaemonFails
    | Post(registered: bool, autoStart: bool)
    | ReadinessPause(reason: string)
    | DirectStop
    | DirectResume

  function Apply(row: Row, e: Event): Row {
    match e
    case Service(q) => Serve(row, q)
    case DaemonStarts(registered) => if registered then row else DaemonStart(row, false)
    case DaemonStops => DaemonStop(row)
    case DaemonFails => MarkError(row)
    case Post(registered, autoStart) => Autostarted(row, registered, autoStart, NO_FAULTS)
    case ReadinessPause(reason) => RawPaused(row, reason)
    case DirectStop => RawStopped(row)
    case DirectResume => RawResumed(row)
  }

  function ApplyAll(row: Row, es: seq<Event>): Row
    decreases es
  {
    if es == [] then row else ApplyAll(Apply(row, es[0]), es[1..])
  }

  lemma {:induction false} RunsKeepRuntimeBacked(row: Row, es: seq<Event>)
    requires RuntimeBacked(row)
    ensures RuntimeBacked(ApplyAll(row, es))
    decreases es
  {
    if es == [] {
    } else {
      if es[0].Service? {
        var q := es[0].request;
        TableNeverEntersTransientStates(Parse(row.lifecycle), q.action, q.force);
      }
      RunsKeepRuntimeBacked(Apply(row, es[0]), es[1..]);
    }
  }

  /**
  Over every history of service requests, daemon starts, stops and failures, earlier posts and
  writes past the service, a post whose resume succeeds triggers a tick only for a mission whose lifecycle is running,
  although the decision reads runtime alone. Of the other steps only one of the two that move the
  lifecycle has to succeed.
  */
  lemma TriggersOnlyRunningMissions(es: seq<Event>, registered: bool, autoStart: bool, faults: Faults)
    requires !faults.resume && !(faults.sync && faults.forcedStart)
    ensures var row := ApplyAll(INITIAL_ROW, es);
            var after := Autostarted(row, registered, autoStart, faults);
            after.runtime == Up ==> after.lifecycle == Known(Running)
  {
    RunsKeepRuntimeBacked(INITIAL_ROW, es);
  }

  /**
  One swallowed failure is enough to break it: if the daemon's own synchronisation fails, runtime is
  up over a stopped lifecycle, and the next post triggers a tick for a stopped mission.
  */
  lemma SwallowedSyncTriggersStopped()
    ensures var drifted := DaemonStart(INITIAL_ROW, true);
            var after := Autostarted(drifted, true, true, NO_FAULTS);
            after.runtime == Up && after.lifecycle == Known(Stopped)
  {
  }

  /** And so is a failed resume: the mission stays at its gate with runtime up. */
  lemma FailedResumeTriggersAtTheGate(row: Row, registered: bool, autoStart: bool, faults: Faults)
    requires Coherent(row) && AtHumanGate(row.lifecycle.state) && faults.resume
    ensures Autostarted(row, registered, autoStart, faults) == row && row.runtime == Up
  {
  }
}
