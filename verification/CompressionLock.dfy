/**
Dispatching the background compression of one thread, by any number of callers in any number of
processes that share one state row: a per-process set as a fast path, a compare-and-swap on the
row, a runner that reports its outcome by reading and then writing the row, and a circuit breaker.
*/
module CompressionLock {
  import opened Prelude

  type Proc = nat
  type RunId = nat

  const FAILURES_TO_DISABLE: nat := 3

  datatype Row = Row(exists_: bool, inProgress: bool, disabled: bool, failures: nat)

  datatype Phase =
    | Called                       // before the process-local check
    | Checked                      // passed it
    | Ensured                      // the state row exists
    | Won                          // the compare-and-swap succeeded, task not yet spawned
    | Running
    | Ended(failed: bool)          // out of maybe_compress_context, local entry discarded
    | Read(failed: bool, failures: nat)  // has loaded the row it will write
    | Cleared                      // flag cleared; the done-callback has not run

  datatype Run = Run(proc: Proc, phase: Phase)

  /**
  outcomes: for every compression that has ended, in order, whether an exception escaped it.
  stuck: a run died, or failed to write, between winning the flag and clearing it.
  resets: administrator resets so far; resetsAtTrip: how many there were when the breaker tripped.
  */
  datatype State = State(
    row: Row, local: set<Proc>, runs: map<RunId, Run>, outcomes: seq<bool>,
    stuck: bool, resets: nat, resetsAtTrip: nat)

  const INIT := State(Row(false, false, false, 0), {}, map[], [], false, 0, 0)

  datatype Step =
    | Call(r: RunId, p: Proc)
    | LocalCheck(r: RunId)
    | EnsureRow(r: RunId)
    | CompareAndSwap(r: RunId)
    | CallerFails(r: RunId)         // cancelled, or an error, at an await before the task is created
    | Spawn(r: RunId)
    | End(r: RunId, failed: bool)    // failed: an exception escaped the compression
    | LoadRow(r: RunId)
    | WriteRow(r: RunId)
    | WriteFails(r: RunId)
    | DoneCallback(r: RunId)
    | Crash(p: Proc)
    | AdminReset

  predicate At(s: State, r: RunId, phase: Phase) {
    r in s.runs && s.runs[r].phase == phase
  }

  predicate Enabled(s: State, step: Step) {
    match step
    case Call(r, _) => r !in s.runs
    case LocalCheck(r) => At(s, r, Called)
    case EnsureRow(r) => At(s, r, Checked)
    case CompareAndSwap(r) => At(s, r, Ensured)
    case CallerFails(r) => At(s, r, Called) || At(s, r, Checked) || At(s, r, Ensured) || At(s, r, Won)
    case Spawn(r) => At(s, r, Won)
    case End(r, _) => At(s, r, Running)
    case LoadRow(r) => r in s.runs && s.runs[r].phase.Ended?
    case WriteRow(r) => r in s.runs && s.runs[r].phase.Read?
    case WriteFails(r) => r in s.runs && (s.runs[r].phase.Ended? || s.runs[r].phase.Read?)
    case DoneCallback(r) => At(s, r, Cleared)
    case Crash(_) => true
    case AdminReset => true
  }

  /** Between a successful compare-and-swap and the clearing of the flag. */
  predicate Critical(phase: Phase) {
    phase.Won? || phase.Running? || phase.Ended? || phase.Read?
  }

  function Goto(s: State, r: RunId, phase: Phase): State
    requires r in s.runs
  {
    s.(runs := s.runs[r := s.runs[r].(phase := phase)])
  }

  /** The write half of the runner's read-modify-write. */
  function Report(row: Row, failed: bool, loaded: nat): Row {
    if !failed then row.(inProgress := false, failures := 0)
    else row.(inProgress := false, failures := loaded + 1,
              disabled := row.disabled || loaded + 1 >= FAILURES_TO_DISABLE)
  }

  function Apply(s: State, step: Step): State
    requires Enabled(s, step)
  {
    match step
    case Call(r, p) => s.(runs := s.runs[r := Run(p, Called)])
    case LocalCheck(r) =>
      if s.runs[r].proc in s.local then s.(runs := s.runs - {r}) else Goto(s, r, Checked)
    case EnsureRow(r) => Goto(s, r, Ensured).(row := s.row.(exists_ := true))
    case CompareAndSwap(r) =>
      if s.row.exists_ && !s.row.inProgress && !s.row.disabled
      then Goto(s, r, Won).(row := s.row.(inProgress := true))
      else s.(runs := s.runs - {r})
    case CallerFails(r) => s.(runs := s.runs - {r}, stuck := s.stuck || s.runs[r].phase == Won)
    case Spawn(r) => Goto(s, r, Running).(local := s.local + {s.runs[r].proc})
    case End(r, failed) => 
      Goto(s, r, Ended(failed)).(local := s.local - {s.runs[r].proc}, outcomes := s.outcomes + [failed])
    case LoadRow(r) => Goto(s, r, Read(s.runs[r].phase.failed, s.row.failures))
    case WriteRow(r) =>
      var ph := s.runs[r].phase;
      var row' := Report(s.row, ph.failed, ph.failures);
      Goto(s, r, Cleared).(row := row',
                           resetsAtTrip := if row'.disabled && !s.row.disabled then s.resets else s.resetsAtTrip)
    case WriteFails(r) => s.(runs := s.runs - {r}, stuck := true)
    case DoneCallback(r) => s.(runs := s.runs - {r}, local := s.local - {s.runs[r].proc})
    case Crash(p) =>
      var dead := set r | r in s.runs && s.runs[r].proc == p;
      s.(runs := s.runs - dead, local := s.local - {p},
         stuck := s.stuck || exists r :: r in dead && Critical(s.runs[r].phase))
    case AdminReset => s.(row := s.row.(disabled := false), resets := s.resets + 1)
  }

  predicate ValidRun(s: State, steps: seq<Step>)
    decreases steps
  {
    steps == [] || (Enabled(s, steps[0]) && ValidRun(Apply(s, steps[0]), steps[1..]))
  }

  function RunAll(s: State, steps: seq<Step>): State
    requires ValidRun(s, steps)
    decreases steps
  {
    if steps == [] then s else RunAll(Apply(s, steps[0]), steps[1..])
  }

  ghost predicate SomeCritical(s: State) {
    exists r :: r in s.runs && Critical(s.runs[r].phase)
  }

  ghost predicate Exclusive(s: State) {
    forall r, q | r in s.runs && q in s.runs && Critical(s.runs[r].phase) && Critical(s.runs[q].phase) :: r == q
  }

  /** The flag tells the truth: it is up iff a run holds it or died holding it, never both. */
  ghost predicate FlagOk(s: State) {
    && (s.row.inProgress <==> SomeCritical(s) || s.stuck)
    && !(s.stuck && SomeCritical(s))
  }

  /** The current streak: how many compressions at the end of the list let an exception escape. */
  function Streak(outcomes: seq<bool>): nat {
    if outcomes == [] || !outcomes[|outcomes| - 1] then 0 else 1 + Streak(outcomes[..|outcomes| - 1])
  }

  /** A compression has ended and its report is not written yet. */
  predicate Reporting(phase: Phase) {
    phase.Ended? || phase.Read?
  }

  ghost predicate ReportDue(s: State) {
    exists r :: r in s.runs && Reporting(s.runs[r].phase)
  }

  /** All outcomes but the last, whose report is due or lost. */
  function Earlier(outcomes: seq<bool>): seq<bool> {
    if outcomes == [] then [] else outcomes[..|outcomes| - 1]
  }

  /** The counter is the streak of the reported outcomes: all, or all but the last. */
  ghost predicate CounterOk(s: State) {
    && (forall r <- s.runs :: Reporting(s.runs[r].phase) ==> ReportFits(s, s.runs[r].phase))
    && (!s.stuck && !ReportDue(s) ==> s.row.failures == Streak(s.outcomes))
    && (s.stuck ==> s.row.failures == Streak(s.outcomes) || s.row.failures == Streak(Earlier(s.outcomes)))
  }

  /** A due report is of the last outcome, and a loaded counter is the row's. */
  predicate ReportFits(s: State, phase: Phase)
    requires Reporting(phase)
  {
    && s.outcomes != [] && s.outcomes[|s.outcomes| - 1] == phase.failed
    && s.row.failures == Streak(Earlier(s.outcomes))
    && (phase.Read? ==> phase.failures == s.row.failures)
  }

  /** Disabled means three reported failures and nothing running; three without it means a reset since. */
  ghost predicate BreakerOk(s: State) {
    && (s.row.disabled ==> s.row.failures >= FAILURES_TO_DISABLE && !SomeCritical(s) && !s.stuck)
    && (s.row.failures >= FAILURES_TO_DISABLE && !s.row.disabled ==> s.resets > s.resetsAtTrip)
    && s.resetsAtTrip <= s.resets
  }

  ghost predicate Inv(s: State) {
    Exclusive(s) && FlagOk(s) && CounterOk(s) && BreakerOk(s)
  }

  lemma CasKeepsInv(s: State, r: RunId)
    requires Inv(s) && Enabled(s, CompareAndSwap(r))
    ensures Inv(Apply(s, CompareAndSwap(r)))
  {
    var s' := Apply(s, CompareAndSwap(r));
    if r in s'.runs {
      assert Critical(s'.runs[r].phase);
      assert forall q <- s.runs :: !Critical(s.runs[q].phase);
    } else {
      SameCritical(s, s');
    }
  }

  /** A step that changes no run's being critical. */
  lemma SameCritical(s: State, s': State)
    requires forall q <- s.runs :: Critical(s.runs[q].phase) ==> q in s'.runs && Critical(s'.runs[q].phase)
    requires forall q <- s'.runs :: Critical(s'.runs[q].phase) ==> q in s.runs && Critical(s.runs[q].phase)
    ensures SomeCritical(s') == SomeCritical(s)
    ensures Exclusive(s) ==> Exclusive(s')
  {
    if SomeCritical(s) {
      var q :| q in s.runs && Critical(s.runs[q].phase);
      assert q in s'.runs && Critical(s'.runs[q].phase);
    }
  }

  lemma LeavingKeepsInv(s: State, step: Step)
    requires Inv(s) && Enabled(s, step)
    requires step.WriteRow? || step.WriteFails? || (step.CallerFails? && At(s, step.r, Won))
    ensures Inv(Apply(s, step))
  {
    var s' := Apply(s, step);
    assert Critical(s.runs[step.r].phase);
    assert forall q <- s'.runs :: !Critical(s'.runs[q].phase);
  }

  lemma CrashKeepsInv(s: State, p: Proc)
    requires Inv(s)
    ensures Inv(Apply(s, Crash(p)))
  {
    var s' := Apply(s, Crash(p));
    if SomeCritical(s) {
      var q :| q in s.runs && Critical(s.runs[q].phase);
      if s.runs[q].proc == p {
        assert forall o <- s'.runs :: !Critical(s'.runs[o].phase);
      } else {
        assert q in s'.runs && Critical(s'.runs[q].phase);
      }
    }
  }

  lemma EndKeepsInv(s: State, r: RunId, failed: bool)
    requires Inv(s) && Enabled(s, End(r, failed))
    ensures Inv(Apply(s, End(r, failed)))
  {
    var s' := Apply(s, End(r, failed));
    SameCritical(s, s');
    assert Critical(s.runs[r].phase);
    assert Earlier(s'.outcomes) == s.outcomes;
    assert Reporting(s'.runs[r].phase);
    if ReportDue(s) {
      DueIsCritical(s);
    }
  }

  lemma LoadKeepsInv(s: State, r: RunId)
    requires Inv(s) && Enabled(s, LoadRow(r))
    ensures Inv(Apply(s, LoadRow(r)))
  {
    hide Streak, Earlier;
    SameCritical(s, Apply(s, LoadRow(r)));
    assert Reporting(s.runs[r].phase) && Reporting(Apply(s, LoadRow(r)).runs[r].phase);
  }

  lemma DueIsCritical(s: State)
    requires ReportDue(s)
    ensures SomeCritical(s)
  {
    var r :| r in s.runs && Reporting(s.runs[r].phase);
    assert Critical(s.runs[r].phase);
  }

  lemma CallerStepKeepsInv(s: State, step: Step)
    requires Inv(s) && Enabled(s, step)
    requires step.Call? || step.LocalCheck? || step.EnsureRow? || (step.CallerFails? && !At(s, step.r, Won))
    ensures Inv(Apply(s, step))
  {
    hide Streak, Earlier;
    SameCritical(s, Apply(s, step));
    SameReports(s, Apply(s, step));
  }

  lemma QuietStepKeepsInv(s: State, step: Step)
    requires Inv(s) && Enabled(s, step) && (step.Spawn? || step.DoneCallback? || step.AdminReset?)
    ensures Inv(Apply(s, step))
  {
    hide Streak, Earlier;
    SameCritical(s, Apply(s, step));
    SameReports(s, Apply(s, step));
  }

  /** A step that changes no run's report. */
  lemma SameReports(s: State, s': State)
    requires forall q <- s.runs :: Reporting(s.runs[q].phase) ==> q in s'.runs && s'.runs[q] == s.runs[q]
    ensures ReportDue(s) ==> ReportDue(s')
  {
    if ReportDue(s) {
      var q :| q in s.runs && Reporting(s.runs[q].phase);
      assert q in s'.runs && Reporting(s'.runs[q].phase);
    }
  }

  lemma StepKeepsInv(s: State, step: Step)
    requires Inv(s) && Enabled(s, step)
    ensures Inv(Apply(s, step))
  {
    if step.CompareAndSwap? {
      CasKeepsInv(s, step.r);
    } else if step.WriteRow? || step.WriteFails? || (step.CallerFails? && At(s, step.r, Won)) {
      LeavingKeepsInv(s, step);
    } else if step.Crash? {
      CrashKeepsInv(s, step.p);
    } else if step.End? {
      EndKeepsInv(s, step.r, step.failed);
    } else if step.LoadRow? {
      LoadKeepsInv(s, step.r);
    } else if step.Call? || step.LocalCheck? || step.EnsureRow? || step.CallerFails? {
      CallerStepKeepsInv(s, step);
    } else {
      QuietStepKeepsInv(s, step);
    }
  }

  lemma {:induction false} RunKeepsInv(s: State, steps: seq<Step>)
    requires Inv(s) && ValidRun(s, steps)
    ensures Inv(RunAll(s, steps))
    decreases steps
  {
    if steps == [] {
    } else {
      StepKeepsInv(s, steps[0]);
      RunKeepsInv(Apply(s, steps[0]), steps[1..]);
    }
  }

  /**
  Mutual exclusion over every interleaving, crashes included: at most one run holds the flag, and
  without a stuck flag the row shows it exactly while one does.
  */
  lemma MutualExclusion(steps: seq<Step>)
    requires ValidRun(INIT, steps)
    ensures var s := RunAll(INIT, steps);
            && Exclusive(s)
            && (!s.stuck ==> (s.row.inProgress <==> SomeCritical(s)))
            && (s.stuck ==> s.row.inProgress && !SomeCritical(s))
  {
    RunKeepsInv(INIT, steps);
  }

  /** What the compressions of a run of the system came to, read off the run itself. */
  function EndsOf(steps: seq<Step>): seq<bool> {
    if steps == [] then [] else (if steps[0].End? then [steps[0].failed] else []) + EndsOf(steps[1..])
  }

  lemma {:induction false} OutcomesAreEnds(s: State, steps: seq<Step>)
    requires ValidRun(s, steps)
    ensures RunAll(s, steps).outcomes == s.outcomes + EndsOf(steps)
    decreases steps
  {
    if steps == [] {
    } else {
      OneOutcome(s, steps[0]);
      hide Apply, Enabled;
      OutcomesAreEnds(Apply(s, steps[0]), steps[1..]);
      var first := if steps[0].End? then [steps[0].failed] else [];
      assert s.outcomes + first + EndsOf(steps[1..]) == s.outcomes + (first + EndsOf(steps[1..]));
    }
  }

  lemma OneOutcome(s: State, step: Step)
    requires Enabled(s, step)
    ensures Apply(s, step).outcomes == s.outcomes + if step.End? then [step.failed] else []
  {
  }

  /**
  When no report is due or lost, the stored counter is the number of compressions, back to the last
  one that did not, that ended in an escaped exception. Three of them disable, and only three do.
  */
  lemma BreakerIsExact(steps: seq<Step>)
    requires ValidRun(INIT, steps)
    ensures var s := RunAll(INIT, steps);
            && (!s.stuck && !ReportDue(s) ==> s.row.failures == Streak(EndsOf(steps)))
            && (s.row.disabled ==> Streak(EndsOf(steps)) >= 3)
            && (!s.stuck && !ReportDue(s) && Streak(EndsOf(steps)) >= 3 && s.resets == 0
                ==> s.row.disabled)
  {
    RunKeepsInv(INIT, steps);
    OutcomesAreEnds(INIT, steps);
    assert INIT.outcomes + EndsOf(steps) == EndsOf(steps);
    var s := RunAll(INIT, steps);
    if ReportDue(s) {
      DueIsCritical(s);
    }
  }

  /** While disabled, no run is dispatched until an administrator resets, however long it takes. */
  lemma {:induction false} DisabledDispatchesNothing(s: State, steps: seq<Step>)
    requires Inv(s) && s.row.disabled && ValidRun(s, steps)
    requires AdminReset !in steps
    ensures var s' := RunAll(s, steps); s'.row.disabled && !SomeCritical(s') && s'.outcomes == s.outcomes
    decreases steps
  {
    if steps == [] {
    } else {
      assert steps[0] in steps && steps[0] != AdminReset;
      StepKeepsInv(s, steps[0]);
      var s1 := Apply(s, steps[0]);
      NothingEnds(s, steps[0]);
      DisabledDispatchesNothing(s1, steps[1..]);
    }
  }

  lemma NothingEnds(s: State, step: Step)
    requires !SomeCritical(s) && Enabled(s, step)
    ensures Apply(s, step).outcomes == s.outcomes && Apply(s, step).row.failures == s.row.failures
    ensures step != AdminReset ==> Apply(s, step).row.disabled == s.row.disabled
  {
  }

  /** The flag is up and no run is left that would clear it. */
  ghost predicate FlagAbandoned(s: State) {
    s.row.inProgress && !SomeCritical(s)
  }

  /**
  Exactly when a step leaves the flag up with nobody to clear it: it was so before, a report cannot
  be written, the caller fails between winning the flag and creating the task, or a process dies
  with a run that holds the flag.
  */
  lemma GetsStuckIff(s: State, step: Step)
    requires Inv(s) && Enabled(s, step)
    ensures FlagAbandoned(Apply(s, step)) <==>
              || FlagAbandoned(s)
              || step.WriteFails?
              || (step.CallerFails? && At(s, step.r, Won))
              || (step.Crash? && exists r :: r in s.runs && s.runs[r].proc == step.p && Critical(s.runs[r].phase))
  {
    StepKeepsInv(s, step);
    if step.Crash? {
      var dead := set r | r in s.runs && s.runs[r].proc == step.p;
      assert forall r :: r in dead <==> r in s.runs && s.runs[r].proc == step.p;
    }
  }

  /**
  An abandoned flag is final: nothing in the dispatcher ever clears it, no compression runs again,
  and the counter stays what it is.
  */
  lemma {:induction false} StuckForever(s: State, steps: seq<Step>)
    requires Inv(s) && FlagAbandoned(s) && ValidRun(s, steps)
    ensures var s' := RunAll(s, steps);
            FlagAbandoned(s') && s'.outcomes == s.outcomes && s'.row.failures == s.row.failures
    decreases steps
  {
    hide Inv;
    if steps == [] {
    } else {
      GetsStuckIff(s, steps[0]);
      StepKeepsInv(s, steps[0]);
      NothingEnds(s, steps[0]);
      StuckForever(Apply(s, steps[0]), steps[1..]);
    }
  }

  /** A lost report is never made up for: a lost failure is not counted, a lost success resets nothing. */
  lemma LostReportIsNeverCounted(s: State, r: RunId, steps: seq<Step>)
    requires Inv(s) && Enabled(s, WriteFails(r)) && ValidRun(Apply(s, WriteFails(r)), steps)
    ensures var s' := RunAll(Apply(s, WriteFails(r)), steps);
            && s'.outcomes == s.outcomes && s.outcomes != []
            && s'.row.failures == Streak(Earlier(s.outcomes))
            && (s.outcomes[|s.outcomes| - 1] ==> s'.row.failures + 1 == Streak(s.outcomes))
  {
    GetsStuckIff(s, WriteFails(r));
    StepKeepsInv(s, WriteFails(r));
    StuckForever(Apply(s, WriteFails(r)), steps);
    assert ReportFits(s, s.runs[r].phase);
  }

  /**
  After an administrator's reset the flag can be won again: a caller that has come as far wins it
  exactly when no run holds it and the thread is not disabled.
  */
  lemma WinsFlagIff(s: State, r: RunId)
    requires Inv(s) && At(s, r, Ensured) && s.row.exists_
    ensures At(Apply(s, CompareAndSwap(r)), r, Won) <==> !SomeCritical(s) && !s.stuck && !s.row.disabled
    ensures !Apply(s, AdminReset).row.disabled
    ensures At(Apply(Apply(s, AdminReset), CompareAndSwap(r)), r, Won) <==> !SomeCritical(s) && !s.stuck
  {
    StepKeepsInv(s, AdminReset);
    SameCritical(s, Apply(s, AdminReset));
  }

  // ---------------------------------------------------------------- the per-process set

  /** A crash takes its process's runs and its list with it, and leaves the row as it is. */
  lemma CrashForgetsTheProcess(s: State, p: Proc, r: RunId)
    ensures var s' := Apply(s, Crash(p));
            && s'.row == s.row && p !in s'.local
            && (r in s'.runs <==> r in s.runs && s.runs[r].proc != p)
            && (r in s'.runs ==> s'.runs[r] == s.runs[r])
  {
  }

  /** The fast path: a caller is turned away at once exactly when its process is listed. */
  lemma TurnedAwayIff(s: State, r: RunId)
    requires At(s, r, Called)
    ensures r !in Apply(s, LocalCheck(r)).runs <==> s.runs[r].proc in s.local
    ensures s.runs[r].proc !in s.local ==> At(Apply(s, LocalCheck(r)), r, Checked)
  {
  }

  /** A run is working and the set of its process does not say so. */
  predicate Unlisted(s: State, r: RunId) {
    At(s, r, Running) && s.runs[r].proc !in s.local
  }

  /** Steps during which run r of process p goes on working. */
  ghost predicate LeavesWorking(steps: seq<Step>, r: RunId, p: Proc) {
    forall i | 0 <= i < |steps| :: steps[i] != Crash(p) && !(steps[i].End? && steps[i].r == r)
  }

  /** From s, while r goes on working, the set of its process can lose its entry. */
  ghost predicate CanBeUnlisted(s: State, r: RunId)
    requires r in s.runs
  {
    exists steps :: ValidRun(s, steps) && LeavesWorking(steps, r, s.runs[r].proc) && Unlisted(RunAll(s, steps), r)
  }

  /** An earlier run of the same process whose done-callback has not run yet. */
  ghost predicate CallbackDue(s: State, p: Proc) {
    exists q :: q in s.runs && s.runs[q] == Run(p, Cleared)
  }

  lemma WorkingStep(s: State, r: RunId, step: Step)
    requires Inv(s) && Enabled(s, step) && At(s, r, Running)
    requires s.runs[r].proc in s.local && !CallbackDue(s, s.runs[r].proc)
    requires step != Crash(s.runs[r].proc) && !(step.End? && step.r == r)
    ensures var s' := Apply(s, step);
            && At(s', r, Running) && s'.runs[r].proc == s.runs[r].proc
            && s'.runs[r].proc in s'.local && !CallbackDue(s', s'.runs[r].proc)
  {
    assert Critical(s.runs[r].phase);
    assert forall q | q in s.runs && q != r :: !Critical(s.runs[q].phase);
  }

  lemma {:induction false} ListedWhileWorking(s: State, r: RunId, steps: seq<Step>)
    requires Inv(s) && ValidRun(s, steps) && At(s, r, Running)
    requires s.runs[r].proc in s.local && !CallbackDue(s, s.runs[r].proc)
    requires LeavesWorking(steps, r, s.runs[r].proc)
    ensures !Unlisted(RunAll(s, steps), r)
    decreases steps
  {
    hide Inv, Apply, Enabled, CallbackDue;
    if steps == [] {
    } else {
      WorkingStep(s, r, steps[0]);
      StepKeepsInv(s, steps[0]);
      var rest := steps[1..];
      assert forall i | 0 <= i < |rest| :: rest[i] == steps[i + 1];
      ListedWhileWorking(Apply(s, steps[0]), r, rest);
    }
  }

  /**
  The per-process set is not a lock. Exactly when a listed, working run can drop out of it while it
  works: when the done-callback of an earlier run of its process is still to come.
  */
  lemma LocalSetFailsIff(s: State, r: RunId)
    requires Inv(s) && At(s, r, Running) && s.runs[r].proc in s.local
    ensures CanBeUnlisted(s, r) <==> CallbackDue(s, s.runs[r].proc)
  {
    var p := s.runs[r].proc;
    if CallbackDue(s, p) {
      var q :| q in s.runs && s.runs[q] == Run(p, Cleared);
      var steps := [DoneCallback(q)];
      assert steps[1..] == [];
      assert RunAll(s, steps) == Apply(s, DoneCallback(q));
      assert ValidRun(s, steps) && LeavesWorking(steps, r, p) && Unlisted(RunAll(s, steps), r);
    } else {
      forall steps | ValidRun(s, steps) && LeavesWorking(steps, r, p) ensures !Unlisted(RunAll(s, steps), r) {
        ListedWhileWorking(s, r, steps);
      }
    }
  }

  lemma {:induction false} Extend(s: State, steps: seq<Step>, step: Step)
    requires ValidRun(s, steps) && Enabled(RunAll(s, steps), step)
    ensures ValidRun(s, steps + [step]) && RunAll(s, steps + [step]) == Apply(RunAll(s, steps), step)
    decreases steps
  {
    if steps == [] {
      assert ([] + [step])[1..] == [];
    } else {
      assert (steps + [step])[1..] == steps[1..] + [step];
      Extend(Apply(s, steps[0]), steps[1..], step);
    }
  }

  /** One dispatch of process p up to its task: nothing of p's may be listed, the flag must be free. */
  lemma Dispatch(before: seq<Step>, r: RunId, p: Proc) returns (steps: seq<Step>)
    requires ValidRun(INIT, before)
    requires var s := RunAll(INIT, before);
             r !in s.runs && p !in s.local && !s.row.inProgress && !s.row.disabled
    ensures ValidRun(INIT, steps)
    ensures var s := RunAll(INIT, before);
            RunAll(INIT, steps) == s.(runs := s.runs[r := Run(p, Running)], local := s.local + {p},
                                      row := s.row.(exists_ := true, inProgress := true))
  {
    hide ValidRun, RunAll;
    var s := RunAll(INIT, before);
    Extend(INIT, before, Call(r, p));
    var b1 := before + [Call(r, p)];
    Extend(INIT, b1, LocalCheck(r));
    var b2 := b1 + [LocalCheck(r)];
    Extend(INIT, b2, EnsureRow(r));
    var b3 := b2 + [EnsureRow(r)];
    Extend(INIT, b3, CompareAndSwap(r));
    var b4 := b3 + [CompareAndSwap(r)];
    Extend(INIT, b4, Spawn(r));
    steps := b4 + [Spawn(r)];
    assert RunAll(INIT, steps).runs == s.runs[r := Run(p, Running)];
  }

  /** Its compression ends well and its flag is cleared; the callback is still to come. */
  lemma FinishWell(before: seq<Step>, r: RunId) returns (steps: seq<Step>)
    requires ValidRun(INIT, before) && At(RunAll(INIT, before), r, Running)
    ensures ValidRun(INIT, steps)
    ensures var s := RunAll(INIT, before); var p := s.runs[r].proc;
            RunAll(INIT, steps) == s.(runs := s.runs[r := Run(p, Cleared)], local := s.local - {p},
                                      outcomes := s.outcomes + [false],
                                      row := s.row.(inProgress := false, failures := 0))
  {
    hide ValidRun, RunAll;
    var s := RunAll(INIT, before);
    Extend(INIT, before, End(r, false));
    var b1 := before + [End(r, false)];
    Extend(INIT, b1, LoadRow(r));
    var b2 := b1 + [LoadRow(r)];
    Extend(INIT, b2, WriteRow(r));
    steps := b2 + [WriteRow(r)];
    assert RunAll(INIT, steps).runs == s.runs[r := Run(s.runs[r].proc, Cleared)];
  }

  /** A run of the system in which it happens: one process, two dispatches, the first callback late. */
  lemma LocalSetIsNotALock()
    ensures exists steps :: ValidRun(INIT, steps) && Unlisted(RunAll(INIT, steps), 1)
  {
    hide ValidRun, RunAll;
    RunNothing();
    var first := Dispatch([], 0, 7);
    var done := FinishWell(first, 0);
    var second := Dispatch(done, 1, 7);
    Extend(INIT, second, DoneCallback(0));
    assert Unlisted(RunAll(INIT, second + [DoneCallback(0)]), 1);
  }

  lemma RunNothing()
    ensures ValidRun(INIT, []) && RunAll(INIT, []) == INIT
  {
  }
}
