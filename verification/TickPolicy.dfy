/** The pure decisions taken at tick boundaries. */
module TickPolicy {
  import opened Lifecycles

  predicate ShouldTriggerNow(isRunning: bool, runtime: Runtime) {
    !isRunning && runtime == Up
  }

  predicate NoDrain(status: Status) {
    status in {Known(PausedClarification), Known(PausedWaitingCapability), Known(Stopped), Known(Error)}
  }

  predicate ShouldDrainAfterTick(pendingCount: nat, status: Status) {
    !NoDrain(status) && pendingCount > 0
  }

  /** failed: the tick ended with an error message, which being cancelled also leaves. */
  predicate ShouldPauseIdleAfterTick(failed: bool, status: Status, externalPending: nat) {
    !failed && status == Known(Running) && externalPending <= 0
  }

  predicate ShouldRunOnSchedule(status: Status) {
    !NoDrain(status)
  }

  /**
  For one reading of the queue and the lifecycle, draining and idling never both happen; for an
  error-free tick of a running mission exactly one of them does, and no other state idles.
  */
  lemma DrainXorIdle(failed: bool, status: Status, pending: nat)
    ensures !(ShouldDrainAfterTick(pending, status) && ShouldPauseIdleAfterTick(failed, status, pending))
    ensures !failed && status == Known(Running) ==>
              (ShouldDrainAfterTick(pending, status) <==> !ShouldPauseIdleAfterTick(failed, status, pending))
  {
  }

  /**
  Which states go on by themselves: a mission at a human gate or dead (stopped, in error) neither
  drains nor runs on schedule, every other one does both, text outside the enumeration included.
  */
  lemma GoesOnIff(status: Status, pending: nat)
    ensures var held := status.Known? && (AtHumanGate(status.state) || status.state in {Stopped, Error});
            && (ShouldRunOnSchedule(status) <==> !held)
            && (ShouldDrainAfterTick(pending, status) <==> !held && pending > 0)
  {
  }
}
