/**
The mission state machine: the transition table; the lifecycle service, which also derives the
older runtime_status column and the paused reason from the state it writes; and the places that
write the columns past the service.
*/
module Lifecycles {
  import opened Prelude

  datatype Lifecycle =
    | Stopped | Starting | Running
    | PausedWaitingCapability | PausedClarification | PausedIdle
    | Stopping | Error

  datatype Action =
    | Start | Stop | PauseForCapability | PauseForClarification | PauseIdle
    | Resume | ResolveClarification | Restart | Exception

  /** The lifecycle_status column: a value of the enumeration, or any other text. */
  datatype Status = Known(state: Lifecycle) | Other(text: string)

  /** The runtime_status column. Named is the "else target.value" arm of the service. */
  datatype Runtime = Up | Down | Failed | Named(state: Lifecycle)

  /** The three columns of a mission row that the service writes together. */
  datatype Row = Row(lifecycle: Status, runtime: Runtime, pausedReason: Option<string>)

  const INITIAL_ROW := Row(Known(Stopped), Down, None)

  /** Looks (current, action) up in the table; None is InvalidLifecycleTransition. */
  function Transition(current: Lifecycle, action: Action): Option<Lifecycle> {
    match (current, action)
    case (Stopped, Start) => Some(Running)
    case (Stopped, Restart) => Some(Running)
    case (Starting, Start) => Some(Running)
    case (Starting, Stop) => Some(Stopped)
    case (Starting, Exception) => Some(Error)
    case (Running, Stop) => Some(Stopped)
    case (Running, PauseForCapability) => Some(PausedWaitingCapability)
    case (Running, PauseForClarification) => Some(PausedClarification)
    case (Running, PauseIdle) => Some(PausedIdle)
    case (Running, Exception) => Some(Error)
    case (Running, Restart) => Some(Running)
    case (PausedIdle, Start) => Some(Running)
    case (PausedIdle, Resume) => Some(Running)
    case (PausedIdle, Stop) => Some(Stopped)
    case (PausedWaitingCapability, Resume) => Some(Running)
    case (PausedWaitingCapability, Stop) => Some(Stopped)
    case (PausedClarification, ResolveClarification) => Some(Running)
    case (PausedClarification, Stop) => Some(Stopped)
    case (Stopping, Stop) => Some(Stopped)
    case (Error, Restart) => Some(Running)
    case (Error, Stop) => Some(Stopped)
    case _ => None
  }

  predicate IsAlive(s: Lifecycle) {
    s in {Starting, Running, PausedWaitingCapability, PausedClarification, PausedIdle}
  }

  predicate AtHumanGate(s: Lifecycle) {
    s == PausedClarification || s == PausedWaitingCapability
  }

  /** The state an administrator's forced write goes to. */
  function ForceTarget(action: Action): Lifecycle {
    match action
    case Stop => Stopped
    case Start => Running
    case Restart => Running
    case Resume => Running
    case Exception => Error
    case PauseForCapability => PausedWaitingCapability
    case PauseForClarification => PausedClarification
    case PauseIdle => PausedIdle
    case ResolveClarification => Running
  }

  /** How the service reads the column: text outside the enumeration counts as stopped. */
  function Parse(s: Status): Lifecycle {
    match s
    case Known(l) => l
    case Other(_) => Stopped
  }

  /** The state a request leads to from the state the service read, if the request is accepted. */
  function Target(seen: Lifecycle, action: Action, force: bool): Option<Lifecycle> {
    if force then Some(ForceTarget(action)) else Transition(seen, action)
  }

  function DerivedRuntime(target: Lifecycle): Runtime {
    if IsAlive(target) && target != Stopping then Up
    else if target == Stopped then Down
    else if target == Error then Failed
    else Named(target)
  }

  /** The row the service writes for an accepted request. */
  function Written(target: Lifecycle, reason: Option<string>): Row {
    Row(Known(target), DerivedRuntime(target), if AtHumanGate(target) then reason else None)
  }

  /** One request to the service. */
  datatype Request = Request(action: Action, reason: Option<string>, force: bool)

  /** The row after one request; a refused request leaves it alone. */
  function Serve(row: Row, q: Request): Row {
    match Target(Parse(row.lifecycle), q.action, q.force)
    case Some(target) => Written(target, q.reason)
    case None => row
  }

  function ServeAll(row: Row, qs: seq<Request>): Row
    decreases qs
  {
    if qs == [] then row else ServeAll(Serve(row, qs[0]), qs[1..])
  }

  // ---------------------------------------------------------------- writes past the service

  /** A readiness check that needs a person: the gate and its reason, whatever the state was. */
  function RawPaused(row: Row, reason: string): Row {
    row.(lifecycle := Known(PausedWaitingCapability), pausedReason := Some(reason))
  }

  /** Retiring a mission, and the token guard when the service fails. */
  function RawStopped(row: Row): Row {
    row.(lifecycle := Known(Stopped), runtime := Down)
  }

  /** The builder's resume when the service fails. */
  function RawResumed(row: Row): Row {
    Row(Known(Running), Up, None)
  }

  class Mission {
    var lifecycleStatus: Status
    var runtimeStatus: Runtime
    var pausedReason: Option<string>

    function GetRow(): Row
      reads this
    {
      Row(lifecycleStatus, runtimeStatus, pausedReason)
    }

    constructor ()
      ensures GetRow() == INITIAL_ROW
    {
      lifecycleStatus, runtimeStatus, pausedReason := Known(Stopped), Down, None;
    }

    /** LifecycleService.transition under its row lock; None is the refused transition. */
    method Transit(action: Action, reason: Option<string>, force: bool) returns (r: Option<Lifecycle>)
      modifies this
      ensures r == Target(Parse(old(lifecycleStatus)), action, force)
      ensures GetRow() == Serve(old(GetRow()), Request(action, reason, force))
    {
      var current := match lifecycleStatus { case Known(l) => l case Other(_) => Stopped };
      var target: Lifecycle;
      if force {
        target := ForceTarget(action);
      } else {
        var found := Transition(current, action);
        if found == None {
          return None;
        }
        target := found.value;
      }
      var runtime := Named(target);
      if IsAlive(target) && target != Stopping {
        runtime := Up;
      } else if target == Stopped {
        runtime := Down;
      } else if target == Error {
        runtime := Failed;
      }
      lifecycleStatus := Known(target);
      runtimeStatus := runtime;
      pausedReason := if target in {PausedWaitingCapability, PausedClarification} then reason else None;
      return Some(target);
    }
  }

  /** What the columns promise each other when only the service has written them. */
  ghost predicate Coherent(row: Row) {
    && row.lifecycle.Known?
    && row.lifecycle.state != Starting && row.lifecycle.state != Stopping
    && (row.runtime == Up <==> IsAlive(row.lifecycle.state))
    && (row.runtime == Down <==> row.lifecycle.state == Stopped)
    && (row.runtime == Failed <==> row.lifecycle.state == Error)
    && (row.pausedReason.Some? ==> AtHumanGate(row.lifecycle.state))
  }

  lemma TableNeverEntersTransientStates(s: Lifecycle, action: Action, force: bool)
    ensures Target(s, action, force) != Some(Starting) && Target(s, action, force) != Some(Stopping)
  {
  }

  /** Every history of service requests, forced or not, keeps the three columns coherent. */
  lemma {:induction false} ServiceKeepsRowsCoherent(row: Row, qs: seq<Request>)
    requires Coherent(row)
    ensures Coherent(ServeAll(row, qs))
    decreases qs
  {
    if qs == [] {
    } else {
      TableNeverEntersTransientStates(Parse(row.lifecycle), qs[0].action, qs[0].force);
      ServiceKeepsRowsCoherent(Serve(row, qs[0]), qs[1..]);
    }
  }

  lemma EveryHistoryIsCoherent(qs: seq<Request>)
    ensures Coherent(ServeAll(INITIAL_ROW, qs))
  {
    ServiceKeepsRowsCoherent(INITIAL_ROW, qs);
  }

  /**
  What the writes past the service do to coherence: pausing keeps it exactly for a live mission,
  stopping exactly when no reason is left behind, resuming always.
  */
  lemma RawWritesKeepCoherentIff(row: Row, reason: string)
    requires Coherent(row)
    ensures Coherent(RawPaused(row, reason)) <==> IsAlive(row.lifecycle.state)
    ensures Coherent(RawStopped(row)) <==> row.pausedReason == None
    ensures Coherent(RawResumed(row))
  {
  }

  /** A readiness pause of a stopped mission: a live lifecycle over a runtime that is down. */
  lemma ReadinessPauseBreaksCoherence(reason: string)
    ensures !Coherent(RawPaused(INITIAL_ROW, reason))
  {
    RawWritesKeepCoherentIff(INITIAL_ROW, reason);
  }

  /**
  A forced write agrees with the table wherever the table allows the action at all, so forcing
  only adds transitions and never redirects one.
  */
  lemma ForceExtendsTable(s: Lifecycle, action: Action)
    ensures Transition(s, action).Some? ==> Transition(s, action) == Some(ForceTarget(action))
  {
  }

  /** The states an action brings back to running. */
  predicate WakesFrom(action: Action, s: Lifecycle) {
    match action
    case Start => s in {Stopped, Starting, PausedIdle}
    case Restart => s in {Stopped, Running, Error}
    case Resume => s in {PausedIdle, PausedWaitingCapability}
    case ResolveClarification => s == PausedClarification
    case _ => false
  }

  /** Text outside the enumeration is served as stopped, and stays when the request is refused. */
  lemma UnknownTextActsStopped(text: string, runtime: Runtime, reason: Option<string>, q: Request)
    ensures var row := Row(Other(text), runtime, reason);
            var stopped := row.(lifecycle := Known(Stopped));
            Serve(row, q) == if q.force || q.action in {Start, Restart} then Serve(stopped, q) else row
  {
  }

  /**
  The shape of the table: stopping is always possible but from stopped, every pause is entered
  from running alone, only an exception leads to error, and running is one action away from every
  state but stopping.
  */
  lemma TableShape(s: Lifecycle, action: Action)
    ensures Transition(s, Stop) == if s == Stopped then None else Some(Stopped)
    ensures Transition(s, action) == Some(PausedIdle) <==> s == Running && action == PauseIdle
    ensures Transition(s, action) == Some(PausedClarification) <==> s == Running && action == PauseForClarification
    ensures Transition(s, action) == Some(PausedWaitingCapability) <==> s == Running && action == PauseForCapability
    ensures Transition(s, action) == Some(Error) <==> s in {Starting, Running} && action == Exception
    ensures Transition(s, action) == Some(Running) <==> WakesFrom(action, s)
    ensures (exists a :: Transition(s, a) == Some(Running)) <==> s != Stopping
  {
    assert Transition(Stopped, Start) == Transition(Starting, Start) == Transition(PausedIdle, Start) == Some(Running);
    assert Transition(Running, Restart) == Transition(Error, Restart) == Some(Running);
    assert Transition(PausedWaitingCapability, Resume) == Some(Running);
    assert Transition(PausedClarification, ResolveClarification) == Some(Running);
  }

  /** Without force, a human gate opens to its own answer or to stop, and to nothing else. */
  lemma GateExits(s: Lifecycle, action: Action)
    requires AtHumanGate(s)
    ensures Transition(s, action).Some? <==>
              action == Stop || action == (if s == PausedClarification then ResolveClarification else Resume)
  {
  }
}
