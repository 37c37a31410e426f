/**
Whole runs of one mission's lifecycle row with cron fires, ticks, gate pauses, user messages,
administrators, the daemon and the writers past the service interleaved. A tick, a request and a
daemon start each keep a database session, so what they read later depends on whether that session
rereads the row (Fresh) or answers from the copy it loaded at first (Cached).
*/
module HumanGate {
  import Autostart
  import opened Prelude
  import opened Lifecycles
  import opened TickPolicy

  datatype Session = Fresh | Cached

  /** view: the row copy in the tick's session. WantsIdle: the idle decision was yes. */
  datatype Tick = InBody(view: Row) | WantsIdle(view: Row)

  /**
  A request, or a daemon start, between loading the row and writing the lifecycle; copy is what its
  session loaded.
  */
  datatype Late = LateRequest(copy: Row, request: Request) | LateStart(copy: Row)

  datatype Gate = Gate(row: Row, ticks: map<nat, Tick>, late: map<nat, Late>)

  datatype Step =
    | Write(event: Autostart.Event)                 // any writer of the row but a tick, in one step
    | BeginRequest(d: nat, request: Request)        // a request loads the row
    | FinishRequest(d: nat, request: Request)       // and asks the service later
    | BeginStart(d: nat)                            // a daemon start loads the row and writes runtime
    | FinishStart(d: nat)                           // and synchronises the lifecycle later
    | Abandon(d: nat)                               // or either ends without that
    | CronFire(tick: nat)                           // the scheduler, gated by lifecycle
    | DrivenTick(tick: nat)                         // a triggered or drained tick starts
    | DecideIdle(tick: nat, failed: bool, pending: nat)
    | WriteIdle(tick: nat)                          // the service call that decision leads to
    | EndTick(tick: nat)

  /** The guard every tick passes before doing work. */
  predicate TickSkips(status: Status) {
    status in {Known(PausedWaitingCapability), Known(PausedClarification), Known(Stopped)}
  }

  /** The row as the tick's session sees it. */
  function Copy(session: Session, g: Gate, t: Tick): Row {
    Seen(session, g.row, t.view)
  }

  function Seen(session: Session, row: Row, copy: Row): Row {
    if session == Fresh then row else copy
  }

  /** A session writes the columns it has changed against its own copy, and no others. */
  function Flushed(row: Row, copy: Row, written: Row): Row {
    Row(if written.lifecycle != copy.lifecycle then written.lifecycle else row.lifecycle,
        if written.runtime != copy.runtime then written.runtime else row.runtime,
        if written.pausedReason != copy.pausedReason then written.pausedReason else row.pausedReason)
  }

  predicate Enabled(g: Gate, step: Step) {
    match step
    case Write(_) => true
    case BeginRequest(d, _) => d !in g.late
    case FinishRequest(d, q) => d in g.late && g.late[d].LateRequest? && g.late[d].request == q
    case BeginStart(d) => d !in g.late
    case FinishStart(d) => d in g.late && g.late[d].LateStart?
    case Abandon(d) => d in g.late
    case CronFire(t) => t !in g.ticks
    case DrivenTick(t) => t !in g.ticks
    case DecideIdle(t, _, _) => t in g.ticks && g.ticks[t].InBody?
    case WriteIdle(t) => t in g.ticks && g.ticks[t].WantsIdle?
    case EndTick(t) => t in g.ticks
  }

  function StartTick(g: Gate, t: nat): Gate {
    if g.row.runtime != Up || TickSkips(g.row.lifecycle) then g
    else g.(ticks := g.ticks[t := InBody(g.row)])
  }

  /** What a tick asks for at its end. */
  const IDLE := Request(PauseIdle, Some("phase done"), false)

  /** The row after the service has answered a request from what the session has seen. */
  function ServedFrom(row: Row, seen: Row, q: Request): Row {
    match Target(Parse(seen.lifecycle), q.action, q.force)
    case Some(target) => Flushed(row, seen, Written(target, q.reason))
    case None => row
  }

  /** The row after a daemon start has synchronised the lifecycle it has seen. */
  function SyncedFrom(row: Row, seen: Row): Row {
    if Autostart.Synced(seen.lifecycle) then Flushed(row, seen, Written(Running, None)) else row
  }

  function Apply(session: Session, g: Gate, step: Step): Gate
    requires Enabled(g, step)
  {
    match step
    case Write(e) => g.(row := Autostart.Apply(g.row, e))
    case BeginRequest(d, q) => g.(late := g.late[d := LateRequest(g.row, q)])
    case FinishRequest(d, q) =>
      Gate(ServedFrom(g.row, Seen(session, g.row, g.late[d].copy), q), g.ticks, g.late - {d})
    case BeginStart(d) =>
      var row' := g.row.(runtime := Up);
      Gate(row', g.ticks, g.late[d := LateStart(row')])
    case FinishStart(d) =>
      Gate(SyncedFrom(g.row, Seen(session, g.row, g.late[d].copy)), g.ticks, g.late - {d})
    case Abandon(d) => g.(late := g.late - {d})
    case CronFire(t) => if ShouldRunOnSchedule(g.row.lifecycle) then StartTick(g, t) else g
    case DrivenTick(t) => StartTick(g, t)
    case DecideIdle(t, failed, pending) =>
      if ShouldPauseIdleAfterTick(failed, Copy(session, g, g.ticks[t]).lifecycle, pending)
      then g.(ticks := g.ticks[t := WantsIdle(g.ticks[t].view)])
      else g
    case WriteIdle(t) =>
      Gate(ServedFrom(g.row, Copy(session, g, g.ticks[t]), IDLE), g.ticks - {t}, g.late)
    case EndTick(t) => g.(ticks := g.ticks - {t})
  }

  predicate ValidRun(session: Session, g: Gate, steps: seq<Step>)
    decreases steps
  {
    steps == [] || (Enabled(g, steps[0]) && ValidRun(session, Apply(session, g, steps[0]), steps[1..]))
  }

  function Run(session: Session, g: Gate, steps: seq<Step>): Gate
    requires ValidRun(session, g, steps)
    decreases steps
  {
    if steps == [] then g else Run(session, Apply(session, g, steps[0]), steps[1..])
  }

  predicate Gated(g: Gate) {
    g.row.lifecycle.Known? && AtHumanGate(g.row.lifecycle.state)
  }

  /**
  The steps that may take a mission off the human gates: a posted message, a stop, an answer
  (a resume or a resolution), a forced request that does not itself lead to a gate.
  */
  predicate Opens(step: Step) {
    match step
    case Write(Service(q)) => OpensRequest(q)
    case Write(Post(_, _)) => true
    case Write(DirectStop) => true
    case Write(DirectResume) => true
    case FinishRequest(_, q) => OpensRequest(q)
    case _ => false
  }

  predicate OpensRequest(q: Request) {
    if q.force then !AtHumanGate(ForceTarget(q.action)) else q.action in {Stop, Resume, ResolveClarification}
  }

  /** The steps that may move a mission from one gate to the other, or change the reason. */
  predicate Repauses(step: Step) {
    || (step.Write? && (step.event.ReadinessPause? || (step.event.Service? && step.event.request.force)))
    || step.FinishRequest?
  }

  /** A tick is alive whose session would answer "running" from its copy. */
  ghost predicate StaleTick(session: Session, g: Gate) {
    session == Cached && exists t :: t in g.ticks && g.ticks[t].view.lifecycle == Known(Running)
  }

  /**
  What a request or a daemon start in flight would write from its copy is a lifecycle that is no
  gate: the table leads there from the copy, or the copy is one that a start synchronises.
  */
  predicate LeadsAway(late: Late) {
    match late
    case LateStart(copy) => Autostart.Synced(copy.lifecycle)
    case LateRequest(copy, q) =>
      && !OpensRequest(q)
      && match Target(Parse(copy.lifecycle), q.action, q.force)
         case Some(target) => !AtHumanGate(target) && copy.lifecycle != Known(target)
         case None => false
  }

  ghost predicate StaleLate(session: Session, g: Gate) {
    session == Cached && exists d :: d in g.late && LeadsAway(g.late[d])
  }

  ghost predicate Stale(session: Session, g: Gate) {
    StaleTick(session, g) || StaleLate(session, g)
  }

  ghost predicate NothingOpens(steps: seq<Step>) {
    forall step <- steps :: !Opens(step)
  }

  ghost predicate NothingRepauses(steps: seq<Step>) {
    forall step <- steps :: !Repauses(step)
  }

  lemma WriteKeepsGated(session: Session, g: Gate, step: Step)
    requires Gated(g) && Enabled(g, step) && !Stale(session, g) && !Opens(step)
    requires step.Write? || step.BeginRequest? || step.FinishRequest? || step.BeginStart? || step.FinishStart?
    ensures var g' := Apply(session, g, step);
            && Gated(g') && !Stale(session, g') && g'.ticks.Keys <= g.ticks.Keys
            && (!Repauses(step) ==>
                  g'.row.lifecycle == g.row.lifecycle && g'.row.pausedReason == g.row.pausedReason)
  {
  }

  lemma StepKeepsGated(session: Session, g: Gate, step: Step)
    requires Gated(g) && Enabled(g, step) && !Stale(session, g) && !Opens(step)
    ensures var g' := Apply(session, g, step);
            && Gated(g') && !Stale(session, g') && g'.ticks.Keys <= g.ticks.Keys
            && (!Repauses(step) ==>
                  g'.row.lifecycle == g.row.lifecycle && g'.row.pausedReason == g.row.pausedReason)
  {
    if step.Write? || step.BeginRequest? || step.FinishRequest? || step.BeginStart? || step.FinishStart? {
      WriteKeepsGated(session, g, step);
    }
  }

  /**
  With nothing stale in flight: a run that starts at a human gate and contains no opening step ends
  at a human gate and starts no tick. If nothing in it pauses the mission anew, it is the same gate,
  for the same reason.
  */
  lemma {:induction false} OnlyOpeningStepsLeaveAGate(session: Session, g: Gate, steps: seq<Step>)
    requires Gated(g) && ValidRun(session, g, steps) && !Stale(session, g) && NothingOpens(steps)
    ensures Gated(Run(session, g, steps))
    ensures Run(session, g, steps).ticks.Keys <= g.ticks.Keys
    ensures NothingRepauses(steps) ==>
              && Run(session, g, steps).row.lifecycle == g.row.lifecycle
              && Run(session, g, steps).row.pausedReason == g.row.pausedReason
    decreases steps
  {
    hide Opens, Repauses, Stale, Apply, Gated;
    if steps == [] {
    } else {
      assert steps[0] in steps;
      StepKeepsGated(session, g, steps[0]);
      OnlyOpeningStepsLeaveAGate(session, Apply(session, g, steps[0]), steps[1..]);
    }
  }

  /** Some run without an opening step takes the mission off the human gates. */
  ghost predicate CanSlip(session: Session, g: Gate) {
    exists steps :: ValidRun(session, g, steps) && NothingOpens(steps) && !Gated(Run(session, g, steps))
  }

  /**
  Exactly when the human gates can be left without being opened: when a tick, a request or a daemon
  start is in flight whose session answers from a copy of the row that leads it somewhere else.
  */
  lemma GateHoldsIffNothingStale(session: Session, g: Gate)
    requires Gated(g)
    ensures CanSlip(session, g) <==> Stale(session, g)
  {
    if StaleTick(session, g) {
      var t :| t in g.ticks && g.ticks[t].view.lifecycle == Known(Running);
      StaleTickSlips(g, t);
    } else if StaleLate(session, g) {
      var d :| d in g.late && LeadsAway(g.late[d]);
      StaleLateSlips(g, d);
    } else {
      forall steps | ValidRun(session, g, steps) && NothingOpens(steps)
        ensures Gated(Run(session, g, steps))
      {
        OnlyOpeningStepsLeaveAGate(session, g, steps);
      }
    }
  }

  lemma StaleLateSlips(g: Gate, d: nat)
    requires Gated(g) && d in g.late && LeadsAway(g.late[d])
    ensures CanSlip(Cached, g)
  {
    var step := match g.late[d] case LateStart(_) => FinishStart(d) case LateRequest(_, q) => FinishRequest(d, q);
    RunCons(Cached, g, step, []);
    var steps := [step] + [];
    assert !Gated(Apply(Cached, g, step));
    assert ValidRun(Cached, g, steps) && NothingOpens(steps) && !Gated(Run(Cached, g, steps));
  }

  /** A daemon start that overlaps a readiness pause: runs over the gate, and keeps its reason. */
  lemma LateStartRunsOverAGate(reason: string)
    ensures var g := Gate(INITIAL_ROW, map[], map[]);
            var pause := Write(Autostart.ReadinessPause(reason));
            var steps := [BeginStart(0)] + ([pause] + ([FinishStart(0)] + []));
            && ValidRun(Cached, g, steps)
            && Gated(Apply(Cached, Apply(Cached, g, BeginStart(0)), pause))
            && Run(Cached, g, steps).row == Row(Known(Running), Up, Some(reason))
  {
    var g := Gate(INITIAL_ROW, map[], map[]);
    var pause := Write(Autostart.ReadinessPause(reason));
    var g1 := Apply(Cached, g, BeginStart(0));
    var g2 := Apply(Cached, g1, pause);
    RunCons(Cached, g2, FinishStart(0), []);
    RunCons(Cached, g1, pause, [FinishStart(0)] + []);
    RunCons(Cached, g, BeginStart(0), [pause] + ([FinishStart(0)] + []));
  }

  lemma StaleTickSlips(g: Gate, t: nat)
    requires Gated(g) && t in g.ticks && g.ticks[t].view.lifecycle == Known(Running)
    ensures CanSlip(Cached, g)
  {
    var write: seq<Step> := [WriteIdle(t)] + [];
    var steps := write;
    if g.ticks[t].InBody? {
      var g1 := Apply(Cached, g, DecideIdle(t, false, 0));
      IdleOverridesGateIffReadIsStale(Cached, g1, t);
      RunCons(Cached, g1, WriteIdle(t), []);
      RunCons(Cached, g, DecideIdle(t, false, 0), write);
      steps := [DecideIdle(t, false, 0)] + write;
    } else {
      IdleOverridesGateIffReadIsStale(Cached, g, t);
      RunCons(Cached, g, WriteIdle(t), []);
    }
    assert Run(Cached, g, steps).row.lifecycle == Known(PausedIdle);
  }

  /**
  A readiness pause does not ask which gate the mission is at: it leaves the gate and its reason
  alone exactly when they are already its own, and otherwise replaces them.
  */
  lemma ReadinessPauseKeepsGateIff(session: Session, g: Gate, reason: string)
    requires Gated(g)
    ensures var g' := Apply(session, g, Write(Autostart.ReadinessPause(reason)));
            && g'.row.lifecycle == Known(PausedWaitingCapability) && g'.row.pausedReason == Some(reason)
            && g'.row.runtime == g.row.runtime && g'.ticks == g.ticks && g'.late == g.late
            && (g' == g <==> g.row.lifecycle == Known(PausedWaitingCapability) && g.row.pausedReason == Some(reason))
  {
  }

  /**
  What is done in two steps is what the one-step writers do, whenever the session rereads the row
  or nobody has written it in between; given up, it writes nothing.
  */
  lemma UndisturbedIsAtomic(session: Session, g: Gate, d: nat, q: Request)
    requires d !in g.late
    ensures var h := Apply(session, g, BeginRequest(d, q));
            && Apply(session, h, FinishRequest(d, q)) == g.(row := Serve(g.row, q))
            && Apply(session, h, Abandon(d)) == g
    ensures Apply(session, Apply(session, g, BeginStart(d)), FinishStart(d))
            == g.(row := Autostart.DaemonStart(g.row, false))
  {
    assert g.late[d := LateRequest(g.row, q)] - {d} == g.late;
    assert g.late[d := LateStart(g.row.(runtime := Up))] - {d} == g.late;
  }

  lemma RereadIsAtomic(g: Gate, d: nat, q: Request)
    requires Enabled(g, FinishRequest(d, q))
    ensures Apply(Fresh, g, FinishRequest(d, q)).row == Serve(g.row, q)
  {
  }

  /**
  Exactly when a tick's end idles the mission, its session rereading: the tick has not failed,
  nothing waits and the mission is running - when it decides, and again when it writes.
  */
  lemma TickEndIdlesIff(g: Gate, t: nat, failed: bool, pending: nat, meanwhile: Row)
    requires Enabled(g, DecideIdle(t, failed, pending))
    ensures var decided := Apply(Fresh, g, DecideIdle(t, failed, pending));
            && decided.row == g.row && t in decided.ticks
            && (decided.ticks[t].WantsIdle? <==> !failed && pending == 0 && g.row.lifecycle == Known(Running))
            && (decided.ticks[t].WantsIdle? ==>
                  Apply(Fresh, decided.(row := meanwhile), WriteIdle(t)).row
                  == if meanwhile.lifecycle == Known(Running) then Row(Known(PausedIdle), Up, None) else meanwhile)
  {
  }

  /**
  Exactly when a tick starts: runtime is up and the mission is not held - by a gate or a stop for
  every tick, by an error too for a scheduled one.
  */
  lemma TickStartsIff(g: Gate, t: nat, session: Session)
    requires t !in g.ticks
    ensures var held := g.row.lifecycle in {Known(PausedClarification), Known(PausedWaitingCapability), Known(Stopped)};
            && (t in Apply(session, g, DrivenTick(t)).ticks <==> g.row.runtime == Up && !held)
            && (t in Apply(session, g, CronFire(t)).ticks <==>
                  g.row.runtime == Up && !held && g.row.lifecycle != Known(Error))
  {
  }

  /** At a human gate the scheduler skips and no pending count makes the drain go on. */
  lemma GateStopsScheduleAndDrain(g: Gate, t: nat, pending: nat, session: Session)
    requires Gated(g) && t !in g.ticks
    ensures Apply(session, g, CronFire(t)) == g
    ensures Apply(session, g, DrivenTick(t)) == g
    ensures !ShouldDrainAfterTick(pending, g.row.lifecycle)
  {
  }

  /**
  Exactly when the end-of-tick idle write overrides a human gate: when the service call answers
  its read from a copy that still says running. The row lock does not help, because it locks the
  row without rereading it. Only the columns that differ from the copy are written, so a reason
  that the copy does not know stays behind at paused_idle.
  */
  lemma IdleOverridesGateIffReadIsStale(session: Session, g: Gate, t: nat)
    requires Gated(g) && Enabled(g, WriteIdle(t))
    ensures var view, row' := g.ticks[t].view, Apply(session, g, WriteIdle(t)).row;
            if session == Cached && view.lifecycle == Known(Running) then
              && row'.lifecycle == Known(PausedIdle)
              && row'.runtime == (if view.runtime == Up then g.row.runtime else Up)
              && row'.pausedReason == (if view.pausedReason == None then g.row.pausedReason else None)
            else row' == g.row
  {
    assert AtHumanGate(g.row.lifecycle.state);
    match g.ticks[t].view.lifecycle
    case Known(_) =>
    case Other(_) =>
  }

  lemma RunCons(session: Session, g: Gate, step: Step, rest: seq<Step>)
    requires Enabled(g, step) && ValidRun(session, Apply(session, g, step), rest)
    ensures ValidRun(session, g, [step] + rest)
    ensures Run(session, g, [step] + rest) == Run(session, Apply(session, g, step), rest)
  {
    assert ([step] + rest)[1..] == rest;
  }

  /**
  A run of the cached session: the gate set during the tick is gone after the tick, and the row is
  left idle with the gate's reason.
  */
  lemma CachedSessionLosesAGate()
    ensures var g := Gate(Row(Known(Running), Up, None), map[], map[]);
            var pause := Write(Autostart.Service(Request(PauseForClarification, Some("card"), false)));
            var steps := [DrivenTick(0)] + ([pause] + ([DecideIdle(0, false, 0)] + ([WriteIdle(0)] + [])));
            && ValidRun(Cached, g, steps)
            && Gated(Apply(Cached, Apply(Cached, g, DrivenTick(0)), pause))
            && Run(Cached, g, steps).row == Row(Known(PausedIdle), Up, Some("card"))
  {
    var g := Gate(Row(Known(Running), Up, None), map[], map[]);
    var pause := Write(Autostart.Service(Request(PauseForClarification, Some("card"), false)));
    var g1 := Apply(Cached, g, DrivenTick(0));
    var g2 := Apply(Cached, g1, pause);
    var g3 := Apply(Cached, g2, DecideIdle(0, false, 0));
    RunCons(Cached, g3, WriteIdle(0), []);
    RunCons(Cached, g2, DecideIdle(0, false, 0), [WriteIdle(0)] + []);
    RunCons(Cached, g1, pause, [DecideIdle(0, false, 0)] + ([WriteIdle(0)] + []));
    RunCons(Cached, g, DrivenTick(0), [pause] + ([DecideIdle(0, false, 0)] + ([WriteIdle(0)] + [])));
  }

  /**
  A gate pause requested during a tick takes effect exactly when the row says running. A tick
  that cron started on an idle mission leaves the row idle, so its gate requests are refused.
  */
  lemma GateTakesHoldIffRunning(row: Row, action: Action, reason: Option<string>)
    requires action == PauseForClarification || action == PauseForCapability
    ensures var after := Parse(Serve(row, Request(action, reason, false)).lifecycle);
            AtHumanGate(after) <==> Parse(row.lifecycle) == Running || AtHumanGate(Parse(row.lifecycle))
  {
  }
}
