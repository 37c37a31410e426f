/**
The tick trigger and drain protocol of one mission, as a step system at await granularity.

Posters put a message in the pending queue and then ask whether a tick is registered. A driven
tick runs, unregisters the mission, counts the queue and may start the next tick. A direct tick
(cron, first activation, run-once) goes through the same body, and registers and unregisters in
it, but nobody counts the queue after it.
*/
module TickProtocol {
  import opened Prelude
  import opened Lifecycles
  import opened TickPolicy

  datatype Kind = Driven | Direct

  datatype Phase =
    | Ready                // created, before the one-tick-at-a-time guard
    | Entered              // holds the guard, before popping the queue
    | Popped               // queue read, before registering itself
    | Working              // registered
    | Finishing            // unregistered by the body, still holding the guard
    | Left                 // out of the body
    | Unregistered         // driven only: mission unregistered, queue not yet counted
    | Counted(count: nat)  // driven only: lifecycle not yet read

  datatype Task = Task(kind: Kind, phase: Phase)

  /** A poster between its arrival and its is-running check. */
  datatype Poster = Poster(enqueued: bool, runtime: Option<Runtime>)

  datatype State = State(
    row: Row,
    accepted: seq<nat>,          // the queue row of every message ever enqueued, in order
    consumed: seq<nat>,          // every row ever popped, in order
    dropped: set<nat>,           // every row taken back by a deletion or a rewind
    pending: seq<nat>,
    posters: map<nat, Poster>,
    triggers: nat,               // scheduled trigger coroutines that have not started
    tasks: map<nat, Task>,
    registered: Option<nat>,     // the task the registry holds for the mission
    ticking: Option<nat>,        // the holder of the one-tick-at-a-time guard
    cancelling: set<nat>,        // tasks someone has decided to cancel
    nextTask: nat)

  function Init(row: Row): State {
    State(row, [], [], {}, [], map[], 0, map[], None, None, {}, 0)
  }

  datatype Step =
    | Arrive(p: nat)
    | Enqueue(p: nat, msg: nat)
    | QueueFullReturn(p: nat)                 // the chat handler answers with an error
    | QueueFullGoOn(p: nat)                   // the goal-hint path ignores the rejection
    | ReadRuntime(p: nat)
    | Check(p: nat, autoTrigger: bool)
    | Trigger(p: nat)                         // an answered approval triggers without looking for a tick
    | WalkAway(p: nat)                        // a work order only queues its report or its continuation
    | PosterDies(p: nat)
    | Drop(gone: set<nat>)                    // deleting a message or rewinding takes pending rows back
    | WriteRow(row: Row)                      // anyone may change the mission row
    | SpawnTrigger                            // a repaired worker triggers without a message
    | Launch
    | DirectStart
    | EnterBody(t: nat)
    | LeaveEarly(t: nat)                      // skipped or failed before or after popping
    | Pop(t: nat, ok: bool)
    | Register(t: nat)
    | LeaveRegistered(t: nat)                 // no model configured: returns without unregistering
    | FinishBody(t: nat)
    | Leave(t: nat)
    | DirectEnds(t: nat)
    | Unregister(t: nat)
    | Count(t: nat)
    | Decide(t: nat)
    | CountFails(t: nat)
    | BeginCancel
    | FireCancel(t: nat, handled: bool)

  /** Whether a running task is registered: the registry entry exists and is not done. */
  predicate IsRunning(s: State) {
    s.registered.Some? && s.registered.value in s.tasks
  }

  /** The rows that are not gone, in order. */
  function Without(rows: seq<nat>, gone: set<nat>): seq<nat> {
    if rows == [] then []
    else Without(rows[..|rows| - 1], gone) + (if rows[|rows| - 1] in gone then [] else [rows[|rows| - 1]])
  }

  function DropStep(s: State, gone: set<nat>): State {
    s.(pending := Without(s.pending, gone), dropped := s.dropped + (set m | m in s.pending && m in gone))
  }

  predicate HasPhase(s: State, t: nat, phase: Phase) {
    t in s.tasks && s.tasks[t].phase == phase
  }

  predicate Enabled(s: State, step: Step) {
    match step
    case Arrive(p) => p !in s.posters
    case Enqueue(p, m) => p in s.posters && !s.posters[p].enqueued && m !in s.accepted
    case QueueFullReturn(p) => p in s.posters && !s.posters[p].enqueued
    case QueueFullGoOn(p) => p in s.posters && !s.posters[p].enqueued
    case ReadRuntime(p) => p in s.posters
    case Check(p, _) => p in s.posters && s.posters[p].enqueued && s.posters[p].runtime.Some?
    case Trigger(p) => p in s.posters && s.posters[p].enqueued && s.posters[p].runtime.Some?
    case WalkAway(p) => p in s.posters && s.posters[p].enqueued
    case PosterDies(p) => p in s.posters
    case Drop(_) => true
    case WriteRow(_) => true
    case SpawnTrigger => true
    case Launch => s.triggers > 0
    case DirectStart => true
    case EnterBody(t) => HasPhase(s, t, Ready) && s.ticking == None
    case LeaveEarly(t) => HasPhase(s, t, Ready) || HasPhase(s, t, Entered) || HasPhase(s, t, Popped)
    case Pop(t, _) => HasPhase(s, t, Entered)
    case Register(t) => HasPhase(s, t, Popped)
    case LeaveRegistered(t) => HasPhase(s, t, Working)
    case FinishBody(t) => HasPhase(s, t, Working)
    case Leave(t) => HasPhase(s, t, Finishing)
    case DirectEnds(t) => HasPhase(s, t, Left) && s.tasks[t].kind == Direct
    case Unregister(t) => HasPhase(s, t, Left) && s.tasks[t].kind == Driven
    case Count(t) => HasPhase(s, t, Unregistered)
    case Decide(t) => t in s.tasks && s.tasks[t].phase.Counted?
    case CountFails(t) => t in s.tasks && (s.tasks[t].phase.Counted? || s.tasks[t].phase.Unregistered?)
    case BeginCancel => IsRunning(s)
    case FireCancel(t, _) => t in s.tasks && t in s.cancelling
  }

  function SetPhase(s: State, t: nat, phase: Phase): State
    requires t in s.tasks
  {
    s.(tasks := s.tasks[t := s.tasks[t].(phase := phase)])
  }

  function LeaveBody(s: State, t: nat): State
    requires t in s.tasks
  {
    SetPhase(s, t, Left).(ticking := if s.ticking == Some(t) then None else s.ticking)
  }

  function Remove(s: State, t: nat): State {
    s.(tasks := s.tasks - {t})
  }

  /** A poster's is-running check and, in the same atomic step, its trigger. */
  function CheckStep(s: State, p: nat, autoTrigger: bool): State
    requires Enabled(s, Check(p, autoTrigger))
  {
    var s' := s.(posters := s.posters - {p});
    if autoTrigger && ShouldTriggerNow(IsRunning(s), s.posters[p].runtime.value)
    then s'.(triggers := s.triggers + 1) else s'
  }

  /** The runtime values under which an answered approval goes on. */
  predicate Resumes(runtime: Runtime) {
    runtime in {Up, Named(PausedIdle), Named(Starting)}
  }

  function TriggerStep(s: State, p: nat): State
    requires Enabled(s, Trigger(p))
  {
    var s' := s.(posters := s.posters - {p});
    if Resumes(s.posters[p].runtime.value) then s'.(triggers := s.triggers + 1) else s'
  }

  function DecideStep(s: State, t: nat): State
    requires Enabled(s, Decide(t))
  {
    var s' := Remove(s, t);
    var n := s.tasks[t].phase.count;
    if ShouldDrainAfterTick(n, s.row.lifecycle) then s'.(triggers := s.triggers + 1) else s'
  }

  /**
  A cancellation reaching a task. A working tick that catches it unregisters; elsewhere in the
  body it unwinds. A driven task that has not started never runs its finally block, and in the
  code after the body the cancellation is not an Exception, so the drain decision is skipped. The
  canceller cancels again when the task does not end in time, so a task may be hit more than once.
  */
  function CancelStep(s: State, t: nat, handled: bool): State
    requires Enabled(s, FireCancel(t, handled))
  {
    var phase := s.tasks[t].phase;
    if phase == Working && handled then SetPhase(s, t, Finishing).(registered := None)
    else if AfterBody(phase) || (phase == Ready && !handled) then Remove(s, t)
    else LeaveBody(s, t)
  }

  function Apply(s: State, step: Step): State
    requires Enabled(s, step)
  {
    match step
    case Arrive(p) => s.(posters := s.posters[p := Poster(false, None)])
    case Enqueue(p, m) =>
      s.(posters := s.posters[p := s.posters[p].(enqueued := true)],
         accepted := s.accepted + [m], pending := s.pending + [m])
    case QueueFullReturn(p) => s.(posters := s.posters - {p})
    case QueueFullGoOn(p) => s.(posters := s.posters[p := s.posters[p].(enqueued := true)])
    case ReadRuntime(p) => s.(posters := s.posters[p := s.posters[p].(runtime := Some(s.row.runtime))])
    case Check(p, autoTrigger) => CheckStep(s, p, autoTrigger)
    case Trigger(p) => TriggerStep(s, p)
    case WalkAway(p) => s.(posters := s.posters - {p})
    case PosterDies(p) => s.(posters := s.posters - {p})
    case Drop(gone) => DropStep(s, gone)
    case WriteRow(row) => s.(row := row)
    case SpawnTrigger => s.(triggers := s.triggers + 1)
    case Launch =>
      s.(triggers := s.triggers - 1, nextTask := s.nextTask + 1, registered := Some(s.nextTask),
         tasks := s.tasks[s.nextTask := Task(Driven, Ready)])
    case DirectStart =>
      s.(nextTask := s.nextTask + 1, tasks := s.tasks[s.nextTask := Task(Direct, Ready)])
    case EnterBody(t) => SetPhase(s, t, Entered).(ticking := Some(t))
    case LeaveEarly(t) => LeaveBody(s, t)
    case Pop(t, ok) =>
      if ok then SetPhase(s, t, Popped).(consumed := s.consumed + s.pending, pending := [])
      else SetPhase(s, t, Popped)
    case Register(t) => SetPhase(s, t, Working).(registered := Some(t))
    case LeaveRegistered(t) => LeaveBody(s, t)
    case FinishBody(t) => SetPhase(s, t, Finishing).(registered := None)
    case Leave(t) => LeaveBody(s, t)
    case DirectEnds(t) => Remove(s, t)
    case Unregister(t) => SetPhase(s, t, Unregistered).(registered := None)
    case Count(t) => SetPhase(s, t, Counted(|s.pending|))
    case Decide(t) => DecideStep(s, t)
    case CountFails(t) => Remove(s, t)
    case BeginCancel => s.(cancelling := s.cancelling + {s.registered.value})
    case FireCancel(t, handled) => CancelStep(s, t, handled)
  }

  predicate ValidRun(s: State, steps: seq<Step>)
    decreases steps
  {
    steps == [] || (Enabled(s, steps[0]) && ValidRun(Apply(s, steps[0]), steps[1..]))
  }

  function Run(s: State, steps: seq<Step>): State
    requires ValidRun(s, steps)
    decreases steps
  {
    if steps == [] then s else Run(Apply(s, steps[0]), steps[1..])
  }

  /** The state of a run after its first i steps. */
  function At(s: State, steps: seq<Step>, i: nat): State
    requires ValidRun(s, steps) && i <= |steps|
    decreases steps
  {
    if i == 0 then s else At(Apply(s, steps[0]), steps[1..], i - 1)
  }

  lemma {:induction false} AtStep(s: State, steps: seq<Step>, i: nat)
    requires ValidRun(s, steps) && i < |steps|
    ensures Enabled(At(s, steps, i), steps[i]) && At(s, steps, i + 1) == Apply(At(s, steps, i), steps[i])
    decreases steps
  {
    if i == 0 {
    } else {
      AtStep(Apply(s, steps[0]), steps[1..], i - 1);
    }
  }

  lemma {:induction false} AtEnd(s: State, steps: seq<Step>)
    requires ValidRun(s, steps)
    ensures At(s, steps, |steps|) == Run(s, steps)
    decreases steps
  {
    if steps == [] {
    } else {
      AtEnd(Apply(s, steps[0]), steps[1..]);
    }
  }

  // ---------------------------------------------------------------- deciding not to act

  /** The tick a poster finds registered will count the queue when it ends. */
  predicate DrivenRegistered(s: State) {
    IsRunning(s) && s.tasks[s.registered.value].kind == Driven
  }

  /**
  The documented reasons for a decision to leave the queue alone: triggering is switched off, no
  tick is running and neither is the runtime, or the lifecycle must not be drained.
  */
  predicate DocumentedExcuse(s: State, step: Step)
    requires Enabled(s, step)
  {
    match step
    case Check(p, autoTrigger) =>
      !DrivenRegistered(s) && (!autoTrigger || (!IsRunning(s) && s.posters[p].runtime != Some(Up)))
    case Trigger(p) => !Resumes(s.posters[p].runtime.value)
    case Decide(t) => s.tasks[t].phase != Counted(0) && NoDrain(s.row.lifecycle)
    case _ => false
  }

  /**
  A decision that is never taken, or is left to a tick that will not take it: a poster dies after
  queueing, a poster defers to a direct tick, a poster that takes no look walks away while no driven
  tick is registered, the count fails, a driven tick is cancelled before it starts or after its body.
  */
  predicate LosesDecision(s: State, step: Step)
    requires Enabled(s, step)
  {
    match step
    case PosterDies(p) => s.posters[p].enqueued
    case WalkAway(p) => !DrivenRegistered(s)
    case Check(p, autoTrigger) => autoTrigger && IsRunning(s) && !DrivenRegistered(s)
    case CountFails(t) => Owes(s.tasks[t])
    case FireCancel(t, handled) =>
      Owes(s.tasks[t]) && (AfterBody(s.tasks[t].phase) || (s.tasks[t].phase == Ready && !handled))
    case _ => false
  }

  // ---------------------------------------------------------------- the invariant

  /** A driven task that has yet to count the queue, or that counted something in it. */
  predicate Owes(task: Task) {
    task.kind == Driven && task.phase != Counted(0)
  }

  /** Something in flight will still look at the queue. */
  ghost predicate Obligation(s: State) {
    || s.triggers > 0
    || (exists p :: p in s.posters && s.posters[p].enqueued)
    || (exists t :: t in s.tasks && Owes(s.tasks[t]))
  }

  predicate InBody(phase: Phase) {
    phase in {Entered, Popped, Working, Finishing}
  }

  predicate AfterBody(phase: Phase) {
    phase.Unregistered? || phase.Counted?
  }

  /** Registry and guard: who may be registered, and one tick body at a time. */
  ghost predicate Shape(s: State) {
    && (forall t <- s.tasks :: t < s.nextTask)
    && (s.registered.Some? ==> s.registered.value < s.nextTask)
    // nobody re-registers a task that has unregistered the mission
    && (forall t <- s.tasks :: AfterBody(s.tasks[t].phase) ==> s.tasks[t].kind == Driven && s.registered != Some(t))
    && (forall t <- s.tasks :: InBody(s.tasks[t].phase) <==> s.ticking == Some(t))
    && (s.ticking.Some? ==> s.ticking.value in s.tasks)
  }

  ghost predicate Distinct(rows: seq<nat>) {
    forall i, j | 0 <= i < j < |rows| :: rows[i] != rows[j]
  }

  /**
  First in, first out, nothing lost and nothing invented: the accepted rows that were not taken back
  are the consumed ones followed by the pending ones, in order.
  */
  ghost predicate Fifo(s: State) {
    && s.consumed + s.pending == Without(s.accepted, s.dropped)
    && Distinct(s.accepted)
    && forall m | m in s.dropped :: m in s.accepted
  }

  /** If a message is waiting, something in flight will still look at the queue. */
  ghost predicate Covered(s: State) {
    s.pending != [] ==> Obligation(s)
  }

  ghost predicate Inv(s: State) {
    Shape(s) && Fifo(s)
  }

  lemma ObligationFromPoster(s: State, p: nat)
    requires p in s.posters && s.posters[p].enqueued
    ensures Obligation(s)
  {
  }

  lemma ObligationFromTask(s: State, t: nat)
    requires t in s.tasks && Owes(s.tasks[t])
    ensures Obligation(s)
  {
  }

  /** Obligations survive a step that keeps triggers, waiting posters and owing tasks. */
  lemma ObligationKept(s: State, s': State)
    requires Obligation(s)
    requires s.triggers <= s'.triggers
    requires forall p <- s.posters :: s.posters[p].enqueued ==> p in s'.posters && s'.posters[p].enqueued
    requires forall t <- s.tasks :: Owes(s.tasks[t]) ==> t in s'.tasks && Owes(s'.tasks[t])
    ensures Obligation(s')
  {
    if s.triggers == 0 {
      if p :| p in s.posters && s.posters[p].enqueued {
        ObligationFromPoster(s', p);
      } else {
        var t :| t in s.tasks && Owes(s.tasks[t]);
        ObligationFromTask(s', t);
      }
    }
  }

  predicate EntryStep(step: Step) {
    step.EnterBody? || step.LeaveEarly? || step.Pop? || step.Register?
  }

  predicate ExitStep(step: Step) {
    step.LeaveRegistered? || step.FinishBody? || step.Leave? || step.DirectEnds? || step.Unregister? || step.Count?
  }

  predicate TaskStep(step: Step) {
    EntryStep(step) || ExitStep(step)
  }

  lemma {:induction false} WithoutConcat(a: seq<nat>, b: seq<nat>, gone: set<nat>)
    ensures Without(a + b, gone) == Without(a, gone) + Without(b, gone)
  {
    if b == [] {
      assert a + b == a;
    } else {
      var front := b[..|b| - 1];
      assert (a + b)[..|a + b| - 1] == a + front;
      WithoutConcat(a, front, gone);
    }
  }

  lemma {:induction false} WithoutTwice(rows: seq<nat>, gone: set<nat>, more: set<nat>)
    ensures Without(Without(rows, gone), more) == Without(rows, gone + more)
  {
    if rows == [] {
    } else {
      var n := |rows| - 1;
      WithoutTwice(rows[..n], gone, more);
      WithoutConcat(Without(rows[..n], gone), if rows[n] in gone then [] else [rows[n]], more);
    }
  }

  lemma {:induction false} WithoutMembers(rows: seq<nat>, gone: set<nat>)
    ensures forall m :: m in Without(rows, gone) <==> m in rows && m !in gone
    ensures |Without(rows, gone)| <= |rows|
  {
    if rows == [] {
    } else {
      WithoutMembers(rows[..|rows| - 1], gone);
      assert rows == rows[..|rows| - 1] + [rows[|rows| - 1]];
    }
  }

  lemma {:induction false} WithoutDistinct(rows: seq<nat>, gone: set<nat>)
    requires Distinct(rows)
    ensures Distinct(Without(rows, gone))
  {
    if rows == [] {
    } else {
      var n := |rows| - 1;
      WithoutDistinct(rows[..n], gone);
      WithoutMembers(rows[..n], gone);
      assert rows[n] !in rows[..n];
    }
  }

  /** What no row of the list is in is left out of nothing. */
  lemma {:induction false} WithoutOthers(rows: seq<nat>, gone: set<nat>, same: set<nat>)
    requires forall m | m in rows :: m in gone <==> m in same
    ensures Without(rows, gone) == Without(rows, same)
  {
    if rows == [] {
    } else {
      WithoutOthers(rows[..|rows| - 1], gone, same);
      assert rows[|rows| - 1] in rows;
    }
  }

  lemma {:induction false} WithoutNothing(rows: seq<nat>)
    ensures Without(rows, {}) == rows
  {
    if rows == [] {
    } else {
      WithoutNothing(rows[..|rows| - 1]);
    }
  }

  lemma EnqueueKeepsFifo(s: State, p: nat, msg: nat)
    requires Fifo(s) && Enabled(s, Enqueue(p, msg))
    ensures Fifo(Apply(s, Enqueue(p, msg)))
  {
    WithoutConcat(s.accepted, [msg], s.dropped);
    assert [msg][..0] == [];
    assert Without([msg], s.dropped) == [msg];
    assert s.consumed + (s.pending + [msg]) == (s.consumed + s.pending) + [msg];
  }

  lemma DropKeepsFifo(s: State, gone: set<nat>)
    requires Fifo(s)
    ensures Fifo(DropStep(s, gone))
  {
    var hit := set m | m in s.pending && m in gone;
    var kept := s.consumed + s.pending;
    WithoutTwice(s.accepted, s.dropped, hit);
    WithoutConcat(s.consumed, s.pending, hit);
    WithoutOthers(s.pending, gone, hit);
    WithoutDistinct(s.accepted, s.dropped);
    WithoutMembers(s.accepted, s.dropped);
    forall m | m in s.consumed ensures m !in hit {
      ApartIfDistinct(s.consumed, s.pending, m);
    }
    WithoutOthers(s.consumed, hit, {});
    WithoutNothing(s.consumed);
    forall m | m in hit ensures m in s.accepted {
      assert m in kept;
    }
  }

  lemma ApartIfDistinct(a: seq<nat>, b: seq<nat>, m: nat)
    requires Distinct(a + b) && m in a
    ensures m !in b
  {
    var i :| 0 <= i < |a| && a[i] == m;
    forall j | 0 <= j < |b| ensures b[j] != m {
      assert (a + b)[i] == m && (a + b)[|a| + j] == b[j];
    }
  }

  lemma StepKeepsFifo(s: State, step: Step)
    requires Fifo(s) && Enabled(s, step)
    ensures Fifo(Apply(s, step))
  {
    if step.Enqueue? {
      EnqueueKeepsFifo(s, step.p, step.msg);
    } else if step.Drop? {
      DropKeepsFifo(s, step.gone);
    } else if step.Pop? {
      PopKeepsFifo(s, step.t, step.ok);
    } else {
      hide Without, Distinct;
    }
  }

  lemma PopKeepsFifo(s: State, t: nat, ok: bool)
    requires Fifo(s) && Enabled(s, Pop(t, ok))
    ensures Fifo(Apply(s, Pop(t, ok)))
  {
    hide Without, Distinct;
    assert (s.consumed + s.pending) + [] == s.consumed + s.pending;
  }

  lemma EntryStepKeepsShape(s: State, step: Step)
    requires Shape(s) && Enabled(s, step) && EntryStep(step)
    ensures Shape(Apply(s, step))
  {
  }

  lemma BodyExitKeepsShape(s: State, step: Step)
    requires Shape(s) && Enabled(s, step) && (step.LeaveRegistered? || step.FinishBody? || step.Leave?)
    ensures Shape(Apply(s, step))
  {
  }

  lemma AfterBodyKeepsShape(s: State, step: Step)
    requires Shape(s) && Enabled(s, step) && (step.DirectEnds? || step.Unregister? || step.Count?)
    ensures Shape(Apply(s, step))
  {
  }

  lemma ExitStepKeepsShape(s: State, step: Step)
    requires Shape(s) && Enabled(s, step) && ExitStep(step)
    ensures Shape(Apply(s, step))
  {
    hide Shape, Apply, Enabled;
    if step.LeaveRegistered? || step.FinishBody? || step.Leave? {
      BodyExitKeepsShape(s, step);
    } else {
      AfterBodyKeepsShape(s, step);
    }
  }

  lemma CancelKeepsShape(s: State, t: nat, handled: bool)
    requires Shape(s) && Enabled(s, FireCancel(t, handled))
    ensures Shape(CancelStep(s, t, handled))
  {
  }

  lemma BirthOrDeathKeepsShape(s: State, step: Step)
    requires Shape(s) && Enabled(s, step)
    requires step.Launch? || step.DirectStart? || step.Decide? || step.CountFails?
    ensures Shape(Apply(s, step))
  {
  }

  lemma OtherStepKeepsShape(s: State, step: Step)
    requires Shape(s) && Enabled(s, step) && !TaskStep(step) && !step.FireCancel?
    ensures Shape(Apply(s, step))
  {
    if step.Launch? || step.DirectStart? || step.Decide? || step.CountFails? {
      BirthOrDeathKeepsShape(s, step);
    } else {
      var s' := Apply(s, step);
      assert s'.tasks == s.tasks && s'.registered == s.registered;
      assert s'.ticking == s.ticking && s'.nextTask == s.nextTask;
    }
  }

  /** Putting a message in the queue makes its poster one of those who will look at it. */
  lemma EnqueueObliges(s: State, p: nat, msg: nat)
    requires Enabled(s, Enqueue(p, msg))
    ensures Obligation(Apply(s, Enqueue(p, msg)))
  {
    ObligationFromPoster(Apply(s, Enqueue(p, msg)), p);
  }

  lemma CheckKeepsObligation(s: State, p: nat, autoTrigger: bool)
    requires Shape(s) && Obligation(s) && Enabled(s, Check(p, autoTrigger))
    requires !DocumentedExcuse(s, Check(p, autoTrigger)) && !LosesDecision(s, Check(p, autoTrigger))
    ensures Obligation(CheckStep(s, p, autoTrigger))
  {
    if DrivenRegistered(s) {
      ObligationFromTask(CheckStep(s, p, autoTrigger), s.registered.value);
    }
  }

  lemma TriggerKeepsObligation(s: State, p: nat)
    requires Enabled(s, Trigger(p)) && !DocumentedExcuse(s, Trigger(p))
    ensures Obligation(TriggerStep(s, p))
  {
  }

  lemma DecideKeepsObligation(s: State, t: nat)
    requires Obligation(s) && Enabled(s, Decide(t)) && !DocumentedExcuse(s, Decide(t))
    ensures Obligation(DecideStep(s, t))
  {
    if s.tasks[t].phase == Counted(0) {
      ObligationKept(s, DecideStep(s, t));
    }
  }

  lemma CancelKeepsObligation(s: State, t: nat, handled: bool)
    requires Obligation(s) && Enabled(s, FireCancel(t, handled)) && !LosesDecision(s, FireCancel(t, handled))
    ensures Obligation(CancelStep(s, t, handled))
  {
    ObligationKept(s, CancelStep(s, t, handled));
  }

  lemma EntryStepKeepsObligation(s: State, step: Step)
    requires Obligation(s) && Enabled(s, step) && EntryStep(step)
    ensures Obligation(Apply(s, step))
  {
    ObligationKept(s, Apply(s, step));
  }

  lemma ExitStepKeepsObligation(s: State, step: Step)
    requires Obligation(s) && Enabled(s, step) && ExitStep(step)
    ensures Obligation(Apply(s, step)) || s.pending == []
  {
    if s.pending != [] {
      ObligationKept(s, Apply(s, step));
    }
  }

  lemma OtherStepKeepsObligation(s: State, step: Step)
    requires Shape(s) && Obligation(s) && Enabled(s, step)
    requires !LosesDecision(s, step)
    requires !TaskStep(step) && !step.Check? && !step.Trigger? && !step.Decide? && !step.FireCancel?
    ensures Obligation(Apply(s, step))
  {
    if step.Launch? {
      ObligationFromTask(Apply(s, step), s.nextTask);
    } else if step.WalkAway? {
      ObligationFromTask(Apply(s, step), s.registered.value);
    } else {
      ObligationKept(s, Apply(s, step));
    }
  }

  /**
  The step lemma: unless the step is an excused or a lost decision, something in flight that will
  look at the queue stays in flight, or the queue is empty after the step.
  */
  lemma StepKeepsObligation(s: State, step: Step)
    requires Shape(s) && Obligation(s) && Enabled(s, step)
    requires !DocumentedExcuse(s, step) && !LosesDecision(s, step)
    ensures Obligation(Apply(s, step)) || Apply(s, step).pending == []
  {
    hide Obligation, Shape, DocumentedExcuse, LosesDecision;
    if EntryStep(step) {
      EntryStepKeepsObligation(s, step);
    } else if ExitStep(step) {
      ExitStepKeepsObligation(s, step);
    } else if step.Check? {
      assert Shape(s);
      CheckKeepsObligation(s, step.p, step.autoTrigger);
    } else if step.Trigger? {
      TriggerKeepsObligation(s, step.p);
    } else if step.Decide? {
      DecideKeepsObligation(s, step.t);
    } else if step.FireCancel? {
      CancelKeepsObligation(s, step.t, step.handled);
    } else {
      OtherStepKeepsObligation(s, step);
    }
  }


  lemma StepKeepsShape(s: State, step: Step)
    requires Shape(s) && Enabled(s, step)
    ensures Shape(Apply(s, step))
  {
    if EntryStep(step) {
      EntryStepKeepsShape(s, step);
    } else if ExitStep(step) {
      ExitStepKeepsShape(s, step);
    } else if step.FireCancel? {
      CancelKeepsShape(s, step.t, step.handled);
    } else {
      OtherStepKeepsShape(s, step);
    }
  }

  lemma StepKeepsInv(s: State, step: Step)
    requires Inv(s) && Enabled(s, step)
    ensures Inv(Apply(s, step))
  {
    StepKeepsFifo(s, step);
    StepKeepsShape(s, step);
  }

  lemma {:induction false} RunKeepsInv(s: State, steps: seq<Step>)
    requires Inv(s) && ValidRun(s, steps)
    ensures Inv(Run(s, steps))
    decreases steps
  {
    if steps == [] {
    } else {
      StepKeepsInv(s, steps[0]);
      RunKeepsInv(Apply(s, steps[0]), steps[1..]);
    }
  }

  // ---------------------------------------------------------------- what it gives

  lemma {:induction false} AtKeepsInv(s: State, steps: seq<Step>, i: nat)
    requires Inv(s) && ValidRun(s, steps) && i <= |steps|
    ensures Inv(At(s, steps, i))
  {
    if i == 0 {
    } else {
      AtKeepsInv(s, steps, i - 1);
      AtStep(s, steps, i - 1);
      StepKeepsInv(At(s, steps, i - 1), steps[i - 1]);
    }
  }

  /**
  After n steps of a run, step i was the last look at the queue: since then nobody is to look, and
  no message has come.
  */
  ghost predicate LastLook(s: State, steps: seq<Step>, i: nat, n: nat)
    requires ValidRun(s, steps)
  {
    && i < n <= |steps| && Obligation(At(s, steps, i))
    && (forall j: nat | i < j <= n :: Unwatched(At(s, steps, j)))
    && forall j: nat | i <= j < n :: !steps[j].Enqueue?
  }

  /** A message is waiting and nothing in flight will look at it. */
  ghost predicate Unwatched(s: State) {
    s.pending != [] && !Obligation(s)
  }

  predicate Excused(s: State, step: Step)
    requires Enabled(s, step)
  {
    DocumentedExcuse(s, step) || LosesDecision(s, step)
  }

  /** The last step of a run that leaves a message unwatched, or keeps it so, is no arrival of one. */
  lemma UnwatchedStep(s: State, step: Step)
    requires Shape(s) && Enabled(s, step) && Unwatched(Apply(s, step))
    ensures !step.Enqueue?
    ensures Unwatched(s) || (Obligation(s) && Excused(s, step))
  {
    hide Obligation, Shape, DocumentedExcuse, LosesDecision;
    if step.Enqueue? {
      EnqueueObliges(s, step.p, step.msg);
    }
    if step.Drop? {
      WithoutMembers(s.pending, step.gone);
    }
    assert s.pending != [];
    if Obligation(s) && !Excused(s, step) {
      StepKeepsObligation(s, step);
    }
  }

  lemma {:induction false} UnwatchedWasExcused(s: State, steps: seq<Step>, n: nat) returns (i: nat)
    requires Inv(s) && Covered(s) && ValidRun(s, steps) && n <= |steps| && Unwatched(At(s, steps, n))
    ensures LastLook(s, steps, i, n)
    ensures Enabled(At(s, steps, i), steps[i]) && Excused(At(s, steps, i), steps[i])
  {
    hide Obligation, Shape, Excused, Apply, Enabled;
    assert n > 0;
    var m := At(s, steps, n - 1);
    AtStep(s, steps, n - 1);
    AtKeepsInv(s, steps, n - 1);
    UnwatchedStep(m, steps[n - 1]);
    if Unwatched(m) {
      i := UnwatchedWasExcused(s, steps, n - 1);
    } else {
      i := n - 1;
    }
  }

  /**
  No lost wakeup, over every interleaving of posters, overlapping driven ticks, direct ticks,
  cancellations, deletions and row changes: whenever a message is waiting with nothing in flight that
  will look at the queue, the last look at it was a decision excused by its own guards or lost at
  that very step, and no message has come since.
  */
  lemma NoLostWakeup(row: Row, steps: seq<Step>)
    requires ValidRun(Init(row), steps) && Unwatched(Run(Init(row), steps))
    ensures exists i: nat :: LastLook(Init(row), steps, i, |steps|)
              && Enabled(At(Init(row), steps, i), steps[i]) && Excused(At(Init(row), steps, i), steps[i])
  {
    AtEnd(Init(row), steps);
    var i := UnwatchedWasExcused(Init(row), steps, |steps|);
  }

  /** No step of the run is an excused or a lost decision. */
  ghost predicate NoneExcused(s: State, steps: seq<Step>)
    decreases steps
  {
    steps != [] ==>
      && Enabled(s, steps[0]) && !Excused(s, steps[0])
      && NoneExcused(Apply(s, steps[0]), steps[1..])
  }

  lemma {:induction false} CoverLasts(s: State, steps: seq<Step>)
    requires Shape(s) && Covered(s) && ValidRun(s, steps) && NoneExcused(s, steps)
    ensures Covered(Run(s, steps))
    decreases steps
  {
    if steps == [] {
    } else {
      var s1 := Apply(s, steps[0]);
      StepKeepsShape(s, steps[0]);
      if Unwatched(s1) {
        UnwatchedStep(s, steps[0]);
      }
      CoverLasts(s1, steps[1..]);
    }
  }

  /**
  Whatever was excused before: from the moment a message is queued, it is consumed, taken back, or
  waiting and watched, for as long as no decision is excused or lost.
  */
  lemma QueuedMessageIsWatched(row: Row, before: seq<Step>, p: nat, msg: nat, after: seq<Step>)
    requires ValidRun(Init(row), before)
    requires var s := Run(Init(row), before);
             Enabled(s, Enqueue(p, msg)) && ValidRun(Apply(s, Enqueue(p, msg)), after)
             && NoneExcused(Apply(s, Enqueue(p, msg)), after)
    ensures var s := Run(Apply(Run(Init(row), before), Enqueue(p, msg)), after);
            msg in s.consumed || msg in s.dropped || (msg in s.pending && Obligation(s))
  {
    RunKeepsInv(Init(row), before);
    var s := Run(Init(row), before);
    var s1 := Apply(s, Enqueue(p, msg));
    StepKeepsInv(s, Enqueue(p, msg));
    EnqueueObliges(s, p, msg);
    CoverLasts(s1, after);
    RunKeepsInv(s1, after);
    AcceptedGrows(s1, after);
    var s2 := Run(s1, after);
    assert s1.accepted[|s1.accepted| - 1] == msg;
    assert msg in s2.accepted;
    WithoutMembers(s2.accepted, s2.dropped);
    assert msg !in s2.dropped ==> msg in s2.consumed + s2.pending;
  }

  lemma {:induction false} AcceptedGrows(s: State, steps: seq<Step>)
    requires ValidRun(s, steps)
    ensures s.accepted <= Run(s, steps).accepted
    decreases steps
  {
    if steps == [] {
    } else {
      AcceptedGrows(Apply(s, steps[0]), steps[1..]);
    }
  }

  ghost predicate BodiesExclude(s: State) {
    forall t, u | t in s.tasks && u in s.tasks && InBody(s.tasks[t].phase) && InBody(s.tasks[u].phase) :: t == u
  }

  /**
  Every accepted message is consumed, pending or taken back, and only one of these; the queue hands
  over what was not taken back in order, once; and at most one tick body runs.
  */
  lemma QueueIsFifoAndTicksExclude(row: Row, steps: seq<Step>)
    requires ValidRun(Init(row), steps)
    ensures var s := Run(Init(row), steps);
            && s.consumed + s.pending == Without(s.accepted, s.dropped)
            && Distinct(s.consumed + s.pending)
            && (forall m :: m in s.accepted <==> m in s.consumed || m in s.pending || m in s.dropped)
            && (forall m | m in s.dropped :: m !in s.consumed && m !in s.pending)
            && BodiesExclude(s)
  {
    RunKeepsInv(Init(row), steps);
    var s := Run(Init(row), steps);
    WithoutMembers(s.accepted, s.dropped);
    WithoutDistinct(s.accepted, s.dropped);
    assert forall m :: m in s.consumed + s.pending <==> m in s.consumed || m in s.pending;
  }

  // ---------------------------------------------------------------- what takes a message off the queue

  lemma NotTwice(s: State, m: nat)
    requires Inv(s) && m in s.pending
    ensures m !in s.consumed && m !in s.dropped
  {
    WithoutMembers(s.accepted, s.dropped);
    WithoutDistinct(s.accepted, s.dropped);
    assert m in s.consumed + s.pending;
    if m in s.consumed {
      ApartIfDistinct(s.consumed, s.pending, m);
    }
  }

  /** No decision of the run is lost; its cancellations hit ticks that still drain. */
  ghost predicate NoneLost(s: State, steps: seq<Step>)
    requires ValidRun(s, steps)
  {
    forall i: nat | i < |steps| :: !LostAt(s, steps, i)
  }

  ghost predicate LostAt(s: State, steps: seq<Step>, i: nat)
    requires ValidRun(s, steps) && i < |steps|
  {
    Enabled(At(s, steps, i), steps[i]) && LosesDecision(At(s, steps, i), steps[i])
  }

  /**
  The promise as documented, over all runs in which no decision is lost, direct ticks and
  cancellations of working ticks included: a message waiting with nothing in flight was left by a
  switched-off trigger, a runtime that is not running, or a state that must not be drained.
  */
  lemma DocumentedPromise(row: Row, steps: seq<Step>)
    requires ValidRun(Init(row), steps) && NoneLost(Init(row), steps) && Unwatched(Run(Init(row), steps))
    ensures exists i: nat :: LastLook(Init(row), steps, i, |steps|)
              && Enabled(At(Init(row), steps, i), steps[i]) && DocumentedExcuse(At(Init(row), steps, i), steps[i])
  {
    hide Obligation, DocumentedExcuse, LosesDecision, Apply, Enabled;
    AtEnd(Init(row), steps);
    var i := UnwatchedWasExcused(Init(row), steps, |steps|);
    assert !LostAt(Init(row), steps, i);
  }

  /**
  Exactly when a poster's check leaves something in flight, the poster being the only thing that
  was: it triggers, or the tick it defers to is a driven one.
  */
  lemma CheckDefersSafelyIff(s: State, p: nat, autoTrigger: bool)
    requires Inv(s) && Enabled(s, Check(p, autoTrigger))
    requires s.triggers == 0
    requires forall q <- s.posters :: s.posters[q].enqueued ==> q == p
    requires forall t <- s.tasks :: Owes(s.tasks[t]) ==> s.registered == Some(t)
    ensures Obligation(CheckStep(s, p, autoTrigger)) <==>
              || (IsRunning(s) && s.tasks[s.registered.value].kind == Driven)
              || (!IsRunning(s) && autoTrigger && s.posters[p].runtime == Some(Up))
  {
    var s' := CheckStep(s, p, autoTrigger);
    if IsRunning(s) && s.tasks[s.registered.value].kind == Driven {
      ObligationFromTask(s', s.registered.value);
    }
  }

  lemma RunNil(s: State)
    ensures ValidRun(s, []) && Run(s, []) == s
  {
  }

  lemma RunCons(s: State, step: Step, rest: seq<Step>)
    requires Enabled(s, step) && ValidRun(Apply(s, step), rest)
    ensures ValidRun(s, [step] + rest) && Run(s, [step] + rest) == Run(Apply(s, step), rest)
  {
    assert ([step] + rest)[1..] == rest;
  }

  lemma UnregisterStep(s: State, t: nat)
    requires HasPhase(s, t, Left) && s.tasks[t].kind == Driven
    ensures Enabled(s, Unregister(t)) && Apply(s, Unregister(t))
            == s.(tasks := s.tasks[t := Task(Driven, Unregistered)], registered := None)
  {
  }

  lemma CountStep(s: State, t: nat)
    requires HasPhase(s, t, Unregistered) && s.tasks[t].kind == Driven
    ensures Enabled(s, Count(t)) && Apply(s, Count(t)) == s.(tasks := s.tasks[t := Task(Driven, Counted(|s.pending|))])
  {
  }

  lemma DecideLast(s: State, t: nat)
    requires HasPhase(s, t, Counted(|s.pending|))
    ensures Enabled(s, Decide(t)) && Apply(s, Decide(t))
            == s.(tasks := s.tasks - {t}, triggers := s.triggers + if Relaunches(s) then 1 else 0)
  {
  }

  predicate Relaunches(s: State) {
    s.pending != [] && !NoDrain(s.row.lifecycle)
  }

  /**
  A driven tick that has left its body, left alone, is gone three steps later and has scheduled one
  more trigger iff the queue is not empty and the lifecycle may be drained.
  */
  lemma DrivenTickDrainsIff(s: State, t: nat)
    requires HasPhase(s, t, Left) && s.tasks[t].kind == Driven
    ensures var steps := [Unregister(t)] + ([Count(t)] + ([Decide(t)] + []));
            && ValidRun(s, steps)
            && Run(s, steps) == s.(tasks := s.tasks - {t}, registered := None,
                                   triggers := s.triggers + if Relaunches(s) then 1 else 0)
  {
    hide Run, ValidRun, Apply, Enabled;
    UnregisterStep(s, t);
    var s1 := Apply(s, Unregister(t));
    CountStep(s1, t);
    var s2 := Apply(s1, Count(t));
    DecideLast(s2, t);
    assert s2.tasks - {t} == s.tasks - {t};
    RunNil(Apply(s2, Decide(t)));
    RunCons(s2, Decide(t), []);
    RunCons(s1, Count(t), [Decide(t)] + []);
    RunCons(s, Unregister(t), [Count(t)] + ([Decide(t)] + []));
  }

  /**
  What one step, its own or anyone's, does to a driven tick when it is no lost decision: only its
  own count moves it on to deciding, on what was in the queue then, and a tick that counted
  something is gone only by its decision.
  */
  lemma StepMovesDrivenTick(s: State, t: nat, step: Step)
    requires Shape(s) && t in s.tasks && s.tasks[t].kind == Driven && Enabled(s, step) && !LosesDecision(s, step)
    ensures var s' := Apply(s, step);
            if s.tasks[t].phase.Counted? then
              || (t in s'.tasks && s'.tasks[t] == s.tasks[t])
              || (t !in s'.tasks && (s.tasks[t].phase == Counted(0) || step == Decide(t)))
            else
              && t in s'.tasks && s'.tasks[t].kind == Driven
              && (s'.tasks[t].phase.Counted? ==> step == Count(t) && s'.tasks[t].phase == Counted(|s.pending|))
  {
  }

  lemma GoneStaysGone(s: State, t: nat, step: Step)
    requires t !in s.tasks && t < s.nextTask && Enabled(s, step)
    ensures t !in Apply(s, step).tasks && t < Apply(s, step).nextTask
  {
  }

  /** At step k of the run, t counted what was in the queue. */
  ghost predicate CountsAt(s: State, steps: seq<Step>, t: nat, k: nat)
    requires ValidRun(s, steps)
  {
    k < |steps| && steps[k] == Count(t)
  }

  /** t counted at some step before n, found the queue empty or decided on what it had counted. */
  ghost predicate Decided(s: State, steps: seq<Step>, t: nat, n: nat)
    requires ValidRun(s, steps)
  {
    exists k: nat :: k < n && CountsAt(s, steps, t, k)
      && (At(s, steps, k).pending == [] || exists i: nat :: k < i < n && DecidesAt(s, steps, t, k, i))
  }

  ghost predicate DecidesAt(s: State, steps: seq<Step>, t: nat, k: nat, i: nat)
    requires ValidRun(s, steps)
  {
    k < i < |steps| && steps[i] == Decide(t) && HasPhase(At(s, steps, i), t, Counted(|At(s, steps, k).pending|))
  }

  /** Where a driven tick stands after n steps. */
  ghost predicate OnItsWay(s: State, steps: seq<Step>, t: nat, n: nat)
    requires ValidRun(s, steps) && n <= |steps|
  {
    var m := At(s, steps, n);
    if t in m.tasks then
      && m.tasks[t].kind == Driven
      && (m.tasks[t].phase.Counted? ==>
            exists k: nat :: k < n && CountsAt(s, steps, t, k)
                             && m.tasks[t].phase == Counted(|At(s, steps, k).pending|))
    else t < m.nextTask && Decided(s, steps, t, n)
  }

  lemma OnItsWayStep(s: State, steps: seq<Step>, t: nat, n: nat)
    requires Inv(s) && ValidRun(s, steps) && NoneLost(s, steps) && n < |steps| && OnItsWay(s, steps, t, n)
    ensures OnItsWay(s, steps, t, n + 1)
  {
    hide Apply, Enabled, LosesDecision, Shape;
    var m, m' := At(s, steps, n), At(s, steps, n + 1);
    AtStep(s, steps, n);
    AtKeepsInv(s, steps, n);
    assert !LostAt(s, steps, n);
    if t !in m.tasks {
      GoneStaysGone(m, t, steps[n]);
      DecidedStays(s, steps, t, n);
    } else {
      TaskIsOld(m, t);
      NextTaskGrows(m, steps[n]);
      StepMovesDrivenTick(m, t, steps[n]);
      if m.tasks[t].phase.Counted? {
        var k: nat :| k < n && CountsAt(s, steps, t, k) && m.tasks[t].phase == Counted(|At(s, steps, k).pending|);
        if t !in m'.tasks && m.tasks[t].phase != Counted(0) {
          assert DecidesAt(s, steps, t, k, n);
        }
      } else if m'.tasks[t].phase.Counted? {
        assert CountsAt(s, steps, t, n);
      }
    }
  }

  lemma DecidedStays(s: State, steps: seq<Step>, t: nat, n: nat)
    requires ValidRun(s, steps) && Decided(s, steps, t, n)
    ensures Decided(s, steps, t, n + 1)
  {
    var k: nat :| k < n && CountsAt(s, steps, t, k)
      && (At(s, steps, k).pending == [] || exists i: nat :: k < i < n && DecidesAt(s, steps, t, k, i));
    if At(s, steps, k).pending != [] {
      var i: nat :| k < i < n && DecidesAt(s, steps, t, k, i);
      assert k < i < n + 1;
    }
  }

  lemma TaskIsOld(s: State, t: nat)
    requires Shape(s) && t in s.tasks
    ensures t < s.nextTask
  {
  }

  lemma NextTaskGrows(s: State, step: Step)
    requires Enabled(s, step)
    ensures s.nextTask <= Apply(s, step).nextTask
  {
  }

  /**
  A driven tick never forgets, whatever is interleaved with it: it may skip, fail, be cancelled at
  work or overlap with other ticks; once it is gone it has counted the queue, and has found it
  empty or decided on what it counted, unless a decision was lost.
  */
  lemma {:induction false} DrivenTickNeverForgets(s: State, steps: seq<Step>, t: nat, n: nat)
    requires Inv(s) && ValidRun(s, steps) && NoneLost(s, steps) && n <= |steps|
    requires t in s.tasks && s.tasks[t].kind == Driven && !s.tasks[t].phase.Counted?
    ensures OnItsWay(s, steps, t, n)
    ensures t !in At(s, steps, n).tasks ==> Decided(s, steps, t, n)
  {
    if n == 0 {
    } else {
      DrivenTickNeverForgets(s, steps, t, n - 1);
      OnItsWayStep(s, steps, t, n - 1);
    }
  }

  /** A waiting row leaves the queue by a pop that worked or by being taken back, and by nothing else. */
  lemma RowLeavesQueueIff(s: State, step: Step, m: nat)
    requires Inv(s) && Enabled(s, step) && m in s.pending
    ensures var s' := Apply(s, step);
            && (m in s'.consumed <==> step.Pop? && step.ok)
            && (m in s'.dropped <==> step.Drop? && m in step.gone)
            && (m in s'.pending <==> m !in s'.consumed && m !in s'.dropped)
  {
    hide Inv, Without, Enabled, Apply;
    NotTwice(s, m);
    if step.Pop? && step.ok {
      PopTakes(s, step.t);
    } else if step.Drop? {
      DropTakes(s, step.gone);
    } else {
      OtherStepsKeepQueue(s, step);
    }
  }

  lemma PopTakes(s: State, t: nat)
    requires Enabled(s, Pop(t, true))
    ensures var s' := Apply(s, Pop(t, true));
            s'.consumed == s.consumed + s.pending && s'.pending == [] && s'.dropped == s.dropped
  {
  }

  lemma DropTakes(s: State, gone: set<nat>)
    requires Enabled(s, Drop(gone))
    ensures var s' := Apply(s, Drop(gone));
            && s'.consumed == s.consumed
            && forall m | m in s.pending ::
                 (m in s'.pending <==> m !in gone) && (m in s'.dropped <==> m in gone || m in s.dropped)
  {
    WithoutMembers(s.pending, gone);
  }

  lemma OtherStepsKeepQueue(s: State, step: Step)
    requires Enabled(s, step) && !step.Drop? && !(step.Pop? && step.ok)
    ensures var s' := Apply(s, step);
            s'.consumed == s.consumed && s'.dropped == s.dropped && s.pending <= s'.pending
  {
  }

  /** Consumed and taken back is for good, and nothing accepted is forgotten. */
  lemma StepGrows(s: State, step: Step)
    requires Enabled(s, step)
    ensures var s' := Apply(s, step);
            s.consumed <= s'.consumed && s.dropped <= s'.dropped && s.accepted <= s'.accepted
  {
  }

  lemma {:induction false} AtGrows(s: State, steps: seq<Step>, i: nat, j: nat)
    requires ValidRun(s, steps) && i <= j <= |steps|
    ensures var a, b := At(s, steps, i), At(s, steps, j);
            a.consumed <= b.consumed && a.dropped <= b.dropped && a.accepted <= b.accepted
  {
    hide Apply, Enabled;
    if i == j {
    } else {
      AtGrows(s, steps, i, j - 1);
      AtStep(s, steps, j - 1);
      StepGrows(At(s, steps, j - 1), steps[j - 1]);
    }
  }

  /**
  A pop delivers, over every run: whatever had been accepted when a pop worked is consumed or taken
  back at every later moment, so what waits then was accepted after it.
  */
  lemma PopDelivers(row: Row, steps: seq<Step>, i: nat, t: nat, j: nat)
    requires ValidRun(Init(row), steps) && i < |steps| && steps[i] == Pop(t, true) && i < j <= |steps|
    ensures var a, b := At(Init(row), steps, i), At(Init(row), steps, j);
            && (forall m | m in a.accepted :: m in b.consumed || m in b.dropped)
            && (forall m | m in b.pending :: m !in a.accepted)
  {
    var s0 := Init(row);
    var a, a1, b := At(s0, steps, i), At(s0, steps, i + 1), At(s0, steps, j);
    AtStep(s0, steps, i);
    AtKeepsInv(s0, steps, i);
    AtKeepsInv(s0, steps, j);
    AtGrows(s0, steps, i + 1, j);
    PopEmpties(a, t);
    forall m | m in a.accepted ensures m in b.consumed || m in b.dropped {
      WithoutMembers(a.accepted, a.dropped);
      assert m in a1.consumed || m in a1.dropped;
    }
    forall m | m in b.pending ensures m !in a.accepted {
      NotTwice(b, m);
    }
  }

  lemma PopEmpties(s: State, t: nat)
    requires Inv(s) && Enabled(s, Pop(t, true))
    ensures var s' := Apply(s, Pop(t, true));
            s'.pending == [] && forall m | m in s.accepted :: m in s'.consumed || m in s'.dropped
  {
    WithoutMembers(s.accepted, s.dropped);
    assert forall m :: m in s.consumed + s.pending <==> m in s.consumed || m in s.pending;
  }

  // ---------------------------------------------------------------- what starts a tick

  /**
  Exactly what schedules a tick: a poster that finds runtime up and no live tick registered, an
  answered approval whose mission can be resumed, a repaired worker, and a driven tick that has
  counted a message on a mission that is neither held at a gate nor stopped nor in error.
  */
  lemma SchedulesIff(s: State, step: Step)
    requires Enabled(s, step)
    ensures Apply(s, step).triggers == s.triggers + 1 <==>
              match step
              case Check(p, auto) =>
                auto && s.posters[p].runtime == Some(Up) && !(s.registered.Some? && s.registered.value in s.tasks)
              case Trigger(p) => s.posters[p].runtime.value in {Up, Named(PausedIdle), Named(Starting)}
              case SpawnTrigger => true
              case Decide(t) =>
                && s.tasks[t].phase.count > 0
                && s.row.lifecycle !in {Known(PausedClarification), Known(PausedWaitingCapability),
                                        Known(Stopped), Known(Error)}
              case _ => false
    ensures Apply(s, step).triggers == s.triggers - 1 <==> step == Launch
  {
  }

  /** The steps by which a tick takes the mission off the registry. */
  predicate EndsRegistration(s: State, step: Step) {
    || step.FinishBody?
    || step.Unregister?
    || (step.FireCancel? && step.handled && HasPhase(s, step.t, Working))
  }

  /**
  From the moment a tick has left its work, also by a cancellation that it catches, the mission is
  idle to posters: the next check with runtime up triggers.
  */
  lemma IdleAfterWork(s: State, step: Step, p: nat)
    requires Enabled(s, step) && EndsRegistration(s, step)
    requires Enabled(s, Check(p, true)) && s.posters[p].runtime == Some(Up)
    ensures var s' := Apply(s, step);
            Enabled(s', Check(p, true)) && Apply(s', Check(p, true)).triggers == s'.triggers + 1
  {
    assert Apply(s, step).registered == None;
  }

  /** And busy from the moment a tick is launched or has begun its work, until then. */
  lemma BusyDuringWork(s: State, step: Step, p: nat)
    requires Shape(s) && Enabled(s, step) && (step.Launch? || step.Register?)
    requires Enabled(s, Check(p, true))
    ensures var s' := Apply(s, step);
            Enabled(s', Check(p, true)) && Apply(s', Check(p, true)).triggers == s'.triggers
  {
    assert IsRunning(Apply(s, step));
  }

  /** A driven tick decides on the lifecycle that was written last, not on the one it began with. */
  lemma LastWriteDecides(s: State, t: nat, row: Row)
    requires Enabled(s, Decide(t))
    ensures var s' := Apply(Apply(s, WriteRow(row)), Decide(t));
            s'.triggers == s.triggers + 1 <==>
              && s.tasks[t].phase.count > 0
              && row.lifecycle !in {Known(PausedClarification), Known(PausedWaitingCapability),
                                    Known(Stopped), Known(Error)}
  {
  }

  /**
  What a cancellation does to the task it hits: gone at once before its start or after its body;
  otherwise it goes on to its end, past the guard or, when it catches it at work, still behind it.
  */
  lemma CancelledTaskGoesOnIff(s: State, t: nat, handled: bool)
    requires Shape(s) && Enabled(s, FireCancel(t, handled))
    ensures var s', phase := Apply(s, FireCancel(t, handled)), s.tasks[t].phase;
            && (t !in s'.tasks <==> phase.Unregistered? || phase.Counted? || (phase == Ready && !handled))
            && (t in s'.tasks && phase == Working && handled ==> HasPhase(s', t, Finishing) && s'.ticking == Some(t))
            && (t in s'.tasks && !(phase == Working && handled) ==> HasPhase(s', t, Left) && s'.ticking != Some(t))
  {
  }

  // ---------------------------------------------------------------- one message, alone

  /** What a poster does, from its arrival to its check. */
  function Posting(p: nat, msg: nat): seq<Step> {
    [Arrive(p)] + ([Enqueue(p, msg)] + ([ReadRuntime(p)] + ([Check(p, true)] + [])))
  }

  /** What the tick that it triggers does first. */
  const READING: seq<Step> := [Launch] + ([EnterBody(0)] + ([Pop(0, true)] + []))

  lemma LonePostTriggersIff(row: Row, p: nat, msg: nat)
    ensures var s := Init(row);
            && ValidRun(s, Posting(p, msg))
            && Run(s, Posting(p, msg)) == s.(accepted := [msg], pending := [msg],
                                             triggers := if row.runtime == Up then 1 else 0)
  {
    var s0 := Init(row);
    var s1 := s0.(posters := map[p := Poster(false, None)]);
    var s2 := s0.(accepted := [msg], pending := [msg], posters := map[p := Poster(true, None)]);
    var s3 := s2.(posters := map[p := Poster(true, Some(row.runtime))]);
    assert Apply(s0, Arrive(p)) == s1;
    assert Apply(s1, Enqueue(p, msg)) == s2;
    assert Apply(s2, ReadRuntime(p)) == s3;
    assert s3.posters - {p} == map[];
    RunCons(s3, Check(p, true), []);
    RunCons(s2, ReadRuntime(p), [Check(p, true)] + []);
    RunCons(s1, Enqueue(p, msg), [ReadRuntime(p)] + ([Check(p, true)] + []));
    RunCons(s0, Arrive(p), [Enqueue(p, msg)] + ([ReadRuntime(p)] + ([Check(p, true)] + [])));
  }

  /**
  One message to a mission on which nothing else happens: with runtime up a tick is triggered and
  its first steps consume the message; otherwise it waits and nothing is triggered.
  */
  lemma LonePostIsReadIff(row: Row, p: nat, msg: nat)
    ensures var s := Init(row);
            && ValidRun(s, Posting(p, msg))
            && var posted := Run(s, Posting(p, msg));
               && (row.runtime != Up ==> posted.triggers == 0 && posted.pending == [msg] && posted.tasks == map[])
               && (row.runtime == Up ==>
                     && ValidRun(posted, READING)
                     && Run(posted, READING).consumed == [msg] && Run(posted, READING).pending == [])
  {
    LonePostTriggersIff(row, p, msg);
    var s4 := Run(Init(row), Posting(p, msg));
    if row.runtime == Up {
      var s5 := Apply(s4, Launch);
      var s6 := Apply(s5, EnterBody(0));
      RunCons(s6, Pop(0, true), []);
      RunCons(s5, EnterBody(0), [Pop(0, true)] + []);
      RunCons(s4, Launch, [EnterBody(0)] + ([Pop(0, true)] + []));
    }
  }

  // ---------------------------------------------------------------- relaunching

  /** A triggered tick that does no work: turned away at the guard, or given up right behind it. */
  function Cycle(s: State): seq<Step> {
    var t := s.nextTask;
    [Launch] + (TurnedAway(s) + ([Unregister(t)] + ([Count(t)] + ([Decide(t)] + []))))
  }

  function TurnedAway(s: State): seq<Step> {
    var t := s.nextTask;
    if s.ticking.Some? then [LeaveEarly(t)] else [EnterBody(t)] + [LeaveEarly(t)]
  }

  function AfterCycle(s: State): State {
    s.(nextTask := s.nextTask + 1, registered := None,
       triggers := if Relaunches(s) then s.triggers else if s.triggers > 0 then s.triggers - 1 else 0)
  }

  /** The state in which the launched tick has been turned away. */
  function AwayState(s: State): State
    requires s.triggers > 0
  {
    s.(triggers := s.triggers - 1, nextTask := s.nextTask + 1, registered := Some(s.nextTask),
       tasks := s.tasks[s.nextTask := Task(Driven, Left)])
  }

  lemma LaunchStep(s: State)
    requires s.triggers > 0
    ensures Enabled(s, Launch) && Apply(s, Launch)
            == AwayState(s).(tasks := s.tasks[s.nextTask := Task(Driven, Ready)])
  {
  }

  /** Turned away by another tick's guard. */
  lemma LeaveAtTheGuard(s: State, t: nat)
    requires HasPhase(s, t, Ready) && s.ticking.Some? && s.ticking != Some(t)
    ensures Enabled(s, LeaveEarly(t)) && Apply(s, LeaveEarly(t)) == SetPhase(s, t, Left)
  {
  }

  /** Given up right behind a free guard. */
  lemma LeaveBehindTheGuard(s: State, t: nat)
    requires HasPhase(s, t, Ready) && s.ticking == None
    ensures Enabled(s, EnterBody(t)) && Enabled(Apply(s, EnterBody(t)), LeaveEarly(t))
    ensures Apply(Apply(s, EnterBody(t)), LeaveEarly(t)) == SetPhase(s, t, Left)
  {
  }

  lemma LaunchTurnedAway(s: State, rest: seq<Step>)
    requires Shape(s) && s.triggers > 0 && ValidRun(AwayState(s), rest)
    ensures ValidRun(s, [Launch] + (TurnedAway(s) + rest))
    ensures Run(s, [Launch] + (TurnedAway(s) + rest)) == Run(AwayState(s), rest)
  {
    hide Run, ValidRun, Shape, Apply, Enabled;
    TasksAreOld(s);
    LaunchStep(s);
    var t, s1 := s.nextTask, Apply(s, Launch);
    assert SetPhase(s1, t, Left) == AwayState(s);
    if s.ticking.Some? {
      LeaveAtTheGuard(s1, t);
      RunCons(s1, LeaveEarly(t), rest);
    } else {
      LeaveBehindTheGuard(s1, t);
      var s2 := Apply(s1, EnterBody(t));
      RunCons(s2, LeaveEarly(t), rest);
      RunCons(s1, EnterBody(t), [LeaveEarly(t)] + rest);
      assert [EnterBody(t)] + ([LeaveEarly(t)] + rest) == TurnedAway(s) + rest;
    }
    RunCons(s, Launch, TurnedAway(s) + rest);
  }

  /**
  One such tick leaves everything as it was but the registry, and the trigger that started it is
  there again exactly when the queue is not empty and the lifecycle may be drained.
  */
  lemma CycleLeavesEverything(s: State)
    requires Shape(s) && s.triggers > 0
    ensures ValidRun(s, Cycle(s)) && Run(s, Cycle(s)) == AfterCycle(s)
  {
    hide Run, ValidRun, Shape, TurnedAway;
    var t := s.nextTask;
    TasksAreOld(s);
    DrivenTickDrainsIff(AwayState(s), t);
    LaunchTurnedAway(s, [Unregister(t)] + ([Count(t)] + ([Decide(t)] + [])));
    assert AwayState(s).tasks - {t} == s.tasks;
  }

  lemma TasksAreOld(s: State)
    requires Shape(s)
    ensures forall t | t in s.tasks :: t < s.nextTask
    ensures s.ticking.Some? ==> s.ticking.value in s.tasks
  {
  }

  /** n ticks in a row that do no work, each started by a trigger that is due. */
  predicate Spins(s: State, n: nat)
    decreases n
  {
    n == 0 || (s.triggers > 0 && Spins(AfterCycle(s), n - 1))
  }

  /**
  How often a mission can be relaunched without a message being read: as often as triggers were
  due already - or without end, exactly when a message waits and the lifecycle may be drained.
  */
  lemma {:induction false} SpinsIff(s: State, n: nat)
    ensures Spins(s, n) <==> n <= s.triggers || (s.triggers > 0 && Relaunches(s))
    decreases n
  {
    if n == 0 {
    } else {
      SpinsIff(AfterCycle(s), n - 1);
    }
  }

  /**
  The promise fails with a direct tick: a message posted while a cron tick is registered stays in
  the queue of a running, idle mission with nothing in flight.
  */
  lemma CronTickLosesAWakeup(row: Row)
    requires row == Row(Known(Running), Up, None)
    ensures exists steps :: ValidRun(Init(row), steps)
              && var s := Run(Init(row), steps);
                 s.pending == [7] && !Obligation(s) && s.tasks == map[] && s.posters == map[]
                 && s.row == row
  {
    var a0 := Init(row);
    var a1 := Apply(a0, DirectStart);
    var a2 := Apply(a1, EnterBody(0));
    var a3 := Apply(a2, Pop(0, true));
    var a4 := Apply(a3, Register(0));
    CronTailLoses(a4);
    var tail := CRON_TAIL;
    RunCons(a3, Register(0), tail);
    RunCons(a2, Pop(0, true), [Register(0)] + tail);
    RunCons(a1, EnterBody(0), [Pop(0, true)] + ([Register(0)] + tail));
    RunCons(a0, DirectStart, [EnterBody(0)] + ([Pop(0, true)] + ([Register(0)] + tail)));
  }

  const CRON_END: seq<Step> := [FinishBody(0)] + ([Leave(0)] + ([DirectEnds(0)] + []))

  const CRON_TAIL: seq<Step> :=
    [Arrive(0)] + ([Enqueue(0, 7)] + ([ReadRuntime(0)] + ([Check(0, true)] + CRON_END)))

  /** The end of a registered direct tick: nothing looks at the queue. */
  lemma CronEndForgets(s: State)
    requires s.posters == map[] && s.triggers == 0
    requires s.tasks == map[0 := Task(Direct, Working)]
    ensures ValidRun(s, CRON_END)
    ensures var s' := Run(s, CRON_END);
            && s'.pending == s.pending && !Obligation(s') && s'.tasks == map[] && s'.posters == map[]
            && s'.row == s.row
  {
    hide Run, ValidRun;
    var s1 := Apply(s, FinishBody(0));
    var s2 := Apply(s1, Leave(0));
    RunNil(Apply(s2, DirectEnds(0)));
    RunCons(s2, DirectEnds(0), []);
    RunCons(s1, Leave(0), [DirectEnds(0)] + []);
    RunCons(s, FinishBody(0), [Leave(0)] + ([DirectEnds(0)] + []));
  }

  /** The run once a cron tick is at work: a poster comes, defers to it, and the tick ends. */
  lemma CronTailLoses(s: State)
    requires s.row.runtime == Up && s.accepted == [] && s.pending == [] && s.posters == map[] && s.triggers == 0
    requires s.tasks == map[0 := Task(Direct, Working)] && s.registered == Some(0)
    ensures ValidRun(s, CRON_TAIL)
    ensures var s' := Run(s, CRON_TAIL);
            && s'.pending == [7] && !Obligation(s') && s'.tasks == map[] && s'.posters == map[]
            && s'.row == s.row
  {
    var s1 := Apply(s, Arrive(0));
    var s2 := Apply(s1, Enqueue(0, 7));
    var s3 := Apply(s2, ReadRuntime(0));
    var s4 := Apply(s3, Check(0, true));
    assert s4.posters == map[] && s4.tasks == s.tasks;
    CronEndForgets(s4);
    var end := CRON_END;
    RunCons(s3, Check(0, true), end);
    RunCons(s2, ReadRuntime(0), [Check(0, true)] + end);
    RunCons(s1, Enqueue(0, 7), [ReadRuntime(0)] + ([Check(0, true)] + end));
    RunCons(s, Arrive(0), [Enqueue(0, 7)] + ([ReadRuntime(0)] + ([Check(0, true)] + end)));
  }
}
