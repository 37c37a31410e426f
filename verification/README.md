# Verification of the mission runtime

This project models the parts of the Colony backend in which several coroutines, requests or
processes meet, or in which an algorithm carries a promise, and proves what they keep. `dafny verify
dfyconfig.toml` checks all of it.

| file | what it models |
|---|---|
| `Lifecycle.dfy` | the mission state machine, the lifecycle service, and the writes past it |
| `TickPolicy.dfy`, `HumanGate.dfy` | the decisions at tick boundaries, and whole runs in which cron, ticks, gates, users and every writer of the row interleave |
| `Autostart.dfy` | the resume / start / trigger seam behind every posted message, and the daemon's direct writes to the row |
| `TickProtocol.dfy` | the trigger and drain protocol: posters, overlapping ticks, the registry, cancellation |
| `Inbox.dfy` | the main thread and the pending queue together: chat, consume, delete, rewind |
| `EventBus.dfy`, `BusRuns.dfy` | the in-process bus as a class, and all its runs against a history-keeping specification |
| `CompressionLock.dfy` | dispatching compressions: compare-and-swap row, per-process set, circuit breaker, crashes |
| `CompressionThread.dfy`, `Segments.dfy` | selecting, summarising and committing a compression; the numbered text it extends |
| `Chunker.dfy`, `Similarity.dfy`, `Search.dfy` | splitting documents, cosine over exact reals, ranking, fitting vectors to a column |
| `Bindings.dfy` | reconciling skill bindings with declared scopes |
| `Slugs.dfy` | normalising a name and finding a slug that is free |
| `Text.dfy`, `Prelude.dfy` | `str.strip`, decimal numerals, optional values |

Concurrency is modelled as step systems. A step is one stretch of code between two awaits, or one
database transaction; a run is any sequence of enabled steps, and the theorems speak of all runs.
Code that updates objects in place is a class whose methods are proved against functions on the
object's value, and the theorems are about those functions. Clocks, summaries, token weights, square
roots, digests, and which guarded step raises are parameters.

## Where the code falls short of its own description

Each of these is proved, with the exact condition under which the promise does hold.

- Auto-drain is promised for every tick (`super_conversation.py:80-84`, `tick_policy.py:3-6`). A tick
  that the scheduler, the first activation or the run-once endpoint starts registers itself
  (`mission_daemon.py:548-554`) but nobody counts the queue after it, so a message that deferred to
  it stays with nothing in flight (`CronTickLosesAWakeup`, `CheckDefersSafelyIff`). A poster that
  dies after queueing, a work order that only queues while no driven tick is registered
  (`worker_optimization_service.py:276-283`, `438-444`), a failing count, and a cancellation of a
  driven tick that has not started or is in its `finally` block lose the decision too; in all other runs, cancellations of working ticks
  included, the promise holds (`DocumentedPromise`).
- A triggered tick that cannot do its work, because another tick holds the guard or the runtime is not
  up, drains all the same: with a message waiting it is relaunched at once, without end (`SpinsIff`).
- A tick keeps one session with `expire_on_commit=False` (`db/session.py:44-49`), so the "fresh" read
  at its end may be the copy loaded at its beginning, and the idle write then replaces a human gate
  and leaves the gate's reason behind. The row lock does not reread the row
  (`GateHoldsIffNothingStale`, `IdleOverridesGateIffReadIsStale`, `CachedSessionLosesAGate`). A daemon
  start that is overtaken by a pause does the same (`LateStartRunsOverAGate`).
- A cron tick on an idle mission leaves it `paused_idle`, so a gate requested during it is refused
  (`GateTakesHoldIffRunning`).
- `should_trigger_now` reads runtime alone. After a swallowed failure in the daemon's lifecycle
  synchronisation, or of the resume, it triggers ticks for missions that are not running
  (`TriggeredRunsIff`, `SwallowedSyncTriggersStopped`, `FailedResumeTriggersAtTheGate`).
- A post to a mission whose daemon is registered in this process and whose lifecycle is running while
  its runtime is not up starts nothing and triggers nothing (`PostStartsIff`).
- The lifecycle service calls itself the only way to write the lifecycle
  (`lifecycle_service.py:1-9`). A readiness check writes the gate and its reason directly, whatever
  the state; a stop and a resume exist past the service too, and the daemon writes runtime alone
  (`RawWritesKeepCoherentIff`, `DaemonWritesKeepCoherentIff`, `ReadinessPauseKeepsGateIff`).
- The caller's `meta` is spread last and may replace `main_msg_id`; and a chat is two transactions
  (`ChatKeepsConsistentIff`, `EnqueuedIsConsistentIff`, `DeleteInsideAChatDangles`). Rewinding to a
  message that is still queued silently takes it off the queue (`RewindUnqueuesItsTargetIff`).
- `maybe_compress_context` says it compresses user and assistant messages; its query takes every role
  (`compression_service.py:193-203`), and so does the model (`SelectsOnlyDialogueIff`,
  `AToolMessageIsSelected`). It is also called directly by the tick
  (`mission_daemon.py:577`), outside the compare-and-swap; an overlapping commit then counts messages
  twice and may move the watermark back (`CommitKeepsPartitionIff`).
- A crash, a failing report, or a caller that fails before it has created the task, between winning
  the compression flag and clearing it, blocks the thread for good (`GetsStuckIff`, `StuckForever`). The per-process set can be empty while a run works
  (`LocalSetFailsIff`, `LocalSetIsNotALock`).
- Segment headings are numbered by counting the marker in the text, so a summary that contains it
  shifts every later number (`NumberingIsExact`, `NumberedByPositionIff`).
- A negative overlap passes the chunker's check and leaves gaps (`NothingSkippedIff`).
- `scope IN ('all', NULL)` does not match a null scope, so unscoped installed skills are not corrected
  (`RescopingReachesAllIff`, `NullScopeIsInert`).

## Model

| member | source | states |
|---|---|---|
| TickProtocol.NoLostWakeup | backend/app/api/super_conversation.py:369-405 | over every run of posters, overlapping driven ticks, direct ticks, cancellations, deletions and row changes: whenever a message waits with no poster, trigger or driven tick in flight that will look at the queue, the last look was a step that gave up for a reason readable from that step's own guards, and since then nobody has looked and no message has come |
| TickProtocol.StepKeepsObligation | backend/app/api/super_conversation.py:202-210 | a step that is neither an excused nor a lost decision keeps something in flight that will look at the queue, or leaves the queue empty |
| TickProtocol.EnqueueObliges | backend/app/api/super_conversation.py:326-350 | putting a message in the queue makes its poster one of those who will look at it |
| TickProtocol.QueuedMessageIsWatched | backend/app/api/super_conversation.py:95-124 | whatever was excused before, a message from the moment it is queued is consumed, taken back by a deletion or a rewind, or waiting and watched, for as long as no decision is excused or lost |
| TickProtocol.StepKeepsInv | backend/app/services/mission_daemon.py:408-421 | each step, taking rows back included, keeps the registry and guard discipline and the order and completeness of the queue |
| TickProtocol.DocumentedPromise | backend/app/api/super_conversation.py:80-84 | over all runs in which no decision is lost, direct ticks and cancellations of working ticks included: a message waiting with nothing in flight was left by a switched-off trigger, a runtime that is not running, or a no-drain lifecycle, and no message has come since |
| TickProtocol.QueueIsFifoAndTicksExclude | backend/app/services/pending_queue.py:67-123 | over every run, each accepted message is consumed, pending or taken back and only one of these, the consumed and then the pending ones are the accepted ones in order less those taken back, and at most one tick body runs although several ticks may be registered and started |
| TickProtocol.PopDelivers | backend/app/services/pending_queue.py:87-116 | over every run: whatever had been accepted when a pop worked is consumed or taken back at every later moment, so what waits then was accepted after it |
| TickProtocol.RowLeavesQueueIff | backend/app/services/pending_queue.py:92-107 | a waiting row is consumed exactly by a pop that works, taken back exactly by a deletion or rewind that names it, and otherwise keeps waiting |
| TickProtocol.SchedulesIff | backend/app/api/super_conversation.py:202-210 | exactly which steps schedule a tick, by what the poster read, the registry, the count and the lifecycle |
| TickProtocol.LonePostIsReadIff | backend/app/api/super_conversation.py:95-124 | one message to a mission on which nothing else happens is consumed by the first steps of the tick it triggers when runtime is up, and otherwise waits with nothing triggered |
| TickProtocol.IdleAfterWork | backend/app/services/mission_daemon.py:676-689 | from the moment a tick has left its work, by a caught cancellation too, the next check with runtime up triggers |
| TickProtocol.BusyDuringWork | backend/app/api/super_conversation.py:404-405 | right after a tick is launched or registers itself, a check triggers nothing |
| TickProtocol.LastWriteDecides | backend/app/api/super_conversation.py:393-400 | a driven tick decides on the lifecycle that was written last |
| TickProtocol.CancelledTaskGoesOnIff | backend/app/services/tick_lifecycle.py:52-80 | a cancelled task is gone at once exactly before its start and after its body; otherwise it goes on to its end |
| TickProtocol.CheckDefersSafelyIff | backend/app/api/super_conversation.py:202-218 | a poster that was the only thing in flight leaves something in flight iff it triggers, or defers to a tick that drains |
| TickProtocol.DrivenTickDrainsIff | backend/app/api/super_conversation.py:388-400 | the whole state after a driven tick that left its body has counted and decided: one more trigger iff the queue is not empty and the lifecycle may be drained |
| TickProtocol.CycleLeavesEverything | backend/app/api/super_conversation.py:377-400 | a triggered tick that is turned away at the guard, or gives up right behind it, leaves everything as it was but the registry, and its own trigger is due again iff a message waits and the lifecycle may be drained |
| TickProtocol.SpinsIff | backend/app/api/super_conversation.py:388-400 | n such ticks can follow one another without a message being read iff that many triggers were due already, or a message waits, one trigger is due and the lifecycle may be drained |
| TickProtocol.DrivenTickNeverForgets | backend/app/api/super_conversation.py:377-400 | whatever is interleaved with a driven tick (other ticks, posters, cancellations at work), once it is gone it has counted the queue and found it empty or decided on what it counted, unless a decision was lost |
| TickProtocol.CronTickLosesAWakeup | backend/app/services/mission_daemon.py:548-554 | a run exists in which a direct tick ends and a running, idle mission keeps a pending message with nothing in flight |
| TickPolicy.DrainXorIdle | backend/app/domain/tick_policy.py:26-52 | for one reading, draining and idling exclude each other, and exactly one holds for an error-free tick of a running mission |
| TickPolicy.GoesOnIff | backend/app/domain/tick_policy.py:20-61 | a mission drains and runs on schedule exactly when it is neither at a human gate nor stopped nor in error |
| HumanGate.OnlyOpeningStepsLeaveAGate | backend/app/domain/tick_policy.py:20-61 | with nothing stale in flight, no run of cron fires, ticks, idle decisions, daemon writes, readiness pauses, slow requests and slow daemon starts without an opening step takes a mission off the human gates or starts a tick; without a new pause in it, gate and reason stay the same |
| HumanGate.GateHoldsIffNothingStale | backend/app/services/mission_daemon.py:719-735 | some run without an opening step takes a mission off the human gates iff a tick, a request or a daemon start is in flight whose session does not reread the row and whose copy leads it to a lifecycle that is no gate |
| HumanGate.LateStartRunsOverAGate | backend/app/services/mission_daemon.py:242-275 | a daemon start overlapped by a readiness pause ends in running, with the gate's reason left behind |
| HumanGate.ReadinessPauseKeepsGateIff | backend/app/services/readiness.py:134-142 | a readiness pause puts any gated mission at the capability gate with its own reason, and leaves gate and reason alone iff they were its own already |
| HumanGate.GateStopsScheduleAndDrain | backend/app/services/scheduler_service.py:136-148 | at a human gate schedule fires and new ticks do nothing and no pending count drains |
| HumanGate.TickStartsIff | backend/app/services/mission_daemon.py:456-468 | exactly when a triggered and a scheduled tick start |
| HumanGate.TickEndIdlesIff | backend/app/services/mission_daemon.py:719-735 | exactly when a tick's end idles the mission, by what it finds when it decides and again when it writes |
| HumanGate.UndisturbedIsAtomic | backend/app/domain/lifecycle_service.py:58-105 | a request or a daemon start in two steps does what it does in one when nothing writes the row in between |
| HumanGate.IdleOverridesGateIffReadIsStale | backend/app/services/mission_daemon.py:714-735 | the end-of-tick idle write replaces a human gate exactly when it answers its read from a copy that still says running, and then writes only the columns that differ from that copy, so the reason stays behind |
| HumanGate.CachedSessionLosesAGate | backend/app/db/session.py:44-49 | a run in which a gate set during a tick is gone after the tick and the mission is idle with the gate's reason, because its session does not reload rows |
| HumanGate.GateTakesHoldIffRunning | backend/app/domain/lifecycle.py:63-77 | a gate pause leaves the mission at a gate iff it was running or at a gate already |
| Lifecycles.Mission.Transit | backend/app/domain/lifecycle_service.py:45-128 | the request is answered by the table, or by the forced target; the three columns become what the specification of one request says, and a refusal changes nothing |
| Lifecycles.ServiceKeepsRowsCoherent | backend/app/domain/lifecycle_service.py:88-103 | over every sequence of requests, forced or not, runtime is up iff the lifecycle is alive, down iff stopped, failed iff in error, and a reason is present only at the human gates |
| Lifecycles.EveryHistoryIsCoherent | backend/app/domain/lifecycle_service.py:45-128 | the same from a new mission, with starting and stopping never reached |
| Lifecycles.RawWritesKeepCoherentIff | backend/app/services/readiness.py:134-142 | of the writes past the service, a readiness pause keeps the columns in agreement iff the mission was live, a direct stop iff no reason is left behind, a direct resume always |
| Lifecycles.ReadinessPauseBreaksCoherence | backend/app/services/readiness.py:139-142 | the failing input: a readiness pause of a stopped mission |
| Lifecycles.ForceExtendsTable | backend/app/domain/lifecycle_service.py:131-147 | forcing agrees with the table wherever the table allows the action |
| Lifecycles.TableShape | backend/app/domain/lifecycle.py:53-93 | stop works from every state but stopped, each pause is entered from running alone, only an exception leads to error, running is entered exactly by the answers that fit each state, and every state but stopping is one action from it |
| Lifecycles.UnknownTextActsStopped | backend/app/domain/lifecycle_service.py:69-73 | text outside the enumeration is served as stopped, and stays when the request is refused |
| Lifecycles.GateExits | backend/app/domain/lifecycle.py:78-85 | without force a human gate opens to its own answer and to stop only |
| Autostart.Host.StartDaemon | backend/app/services/mission_daemon.py:227-294 | a registered mission is left alone; otherwise the daemon is registered with runtime up and the lifecycle synchronised, or unregistered with runtime in error |
| Autostart.Host.AutostartAndTrigger | backend/app/api/super_conversation.py:127-219 | the row afterwards; a tick is triggered iff asked for, none is registered and the row as it now stands says runtime up; a message that triggers nothing is answered with the warning that says why, and the other warnings say what they mean |
| Autostart.PostStartsIff | backend/app/api/super_conversation.py:147-208 | a post whose steps succeed leaves the mission running with runtime up exactly when it is not in error and not registered, running and down at once; without automatic start, exactly the paused ones are brought back |
| Autostart.Host.Post | backend/app/api/super_conversation.py:120-124 | and then triggers exactly for those missions, unless a tick is registered |
| Autostart.NewMissionStarts | backend/app/services/mission_daemon.py:242-275 | a stopped or draft mission is running with runtime up after one post |
| Autostart.TriggeredRunsIff | backend/app/api/super_conversation.py:166-210 | for any row and any failing steps: whenever runtime is left up, the lifecycle is running exactly under a condition readable before the call |
| Autostart.DaemonWritesKeepCoherentIff | backend/app/services/mission_daemon.py:177-223 | the daemon's own write of error, stopped or running keeps the columns in agreement iff the lifecycle is error, stopped, or live or synchronised |
| Autostart.RunsKeepRuntimeBacked | backend/app/services/mission_daemon.py:227-332 | over every history of service requests, daemon starts, stops and failures, posts and the three writes past the service, runtime is up only over a live lifecycle |
| Autostart.TriggersOnlyRunningMissions | backend/app/api/super_conversation.py:147-210 | after every such history, a post whose resume succeeds can trigger only for a mission that is running |
| Autostart.SwallowedSyncTriggersStopped | backend/app/services/mission_daemon.py:267-277 | after one swallowed synchronisation failure a post triggers for a stopped mission |
| Autostart.FailedResumeTriggersAtTheGate | backend/app/api/super_conversation.py:153-164 | with a failed resume the mission stays at its gate with runtime up |
| Inbox.Store.Enqueue | backend/app/services/pending_queue.py:32-84 | a full queue refuses and changes nothing; otherwise one pending row, named by the caller's meta if that has the key |
| Inbox.Store.Chat | backend/app/api/super_conversation.py:312-339 | the message is on the main thread even when the queue refuses; the row names it unless the meta overrides |
| Inbox.Store.Pop | backend/app/services/pending_queue.py:87-116 | exactly the mission's pending rows are handed over and become consumed |
| Inbox.Store.DeleteMessage | backend/app/api/super_conversation.py:448-479 | an unknown message is refused; otherwise it goes and the pending rows naming it are dropped and counted |
| Inbox.Store.Rewind | backend/app/api/super_conversation.py:488-542 | an unknown target is refused; otherwise later main messages go, later pending rows are dropped, and both counts are right |
| Inbox.ChatFillsToTheLimit | backend/app/services/pending_queue.py:32-77 | a chat leaves exactly its message, and exactly its row when fewer than the limit are waiting; a queue within its limit stays within it |
| Inbox.PopConsumesExactly | backend/app/services/pending_queue.py:92-107 | a tick consumes what waits for its mission, all of it and nothing else |
| Inbox.ChatKeepsConsistentIff | backend/app/api/super_conversation.py:326-337 | a queued chat keeps every pending row backed by a main message iff the caller's meta names nothing, the new message, or one on the main thread |
| Inbox.HistoriesStayConsistent | backend/app/api/super_conversation.py:312-542 | over every history of chats, posts, ticks, deletions and rewinds on any number of missions, every pending row that names a main message names one that is still there and no younger than the row |
| Inbox.EveryHistoryIsConsistent | backend/app/api/super_conversation.py:312-542 | the same from an empty inbox |
| Inbox.EnqueuedIsConsistentIff | backend/app/services/pending_queue.py:67-77 | whatever happened since the message was appended, queueing its row keeps consistency iff the row names nothing or a message that is on the main thread at that moment |
| Inbox.RewindLeavesExactly | backend/app/api/super_conversation.py:518-536 | exactly the main messages at or before the target stay, other threads and missions stay whole, and only younger pending rows of the mission change, to dropped |
| Inbox.RewindUnqueuesItsTargetIff | backend/app/api/super_conversation.py:526-533 | the target's own pending row is dropped iff its time stamp differs from the message's |
| Inbox.DeleteLeavesExactly | backend/app/api/super_conversation.py:465-478 | exactly that message goes, no pending row of the mission names it, and other rows do not change |
| Inbox.DeleteInsideAChatDangles | backend/app/api/super_conversation.py:314-337 | from every consistent state, deleting the new message between the two transactions of its chat leaves a dangling row |
| EventBus.InProcessBus.Publish | backend/app/services/event_bus.py:61-83 | the ring gets the event whoever listens, each queue of the channel gets it with its oldest dropped when full, no other queue changes |
| EventBus.InProcessBus.FanOut | backend/app/services/event_bus.py:73-83 | the delivery loop reaches every subscriber once, and the bounded put never finds a full queue |
| EventBus.InProcessBus.Register | backend/app/services/event_bus.py:85-92 | the queue is registered empty and the answer is the unexpired part of the ring at that instant |
| EventBus.InProcessBus.Cleanup | backend/app/services/event_bus.py:100-112 | the channel key goes with its last subscriber, the ring only when nobody listens and all of it has expired |
| BusRuns.StepKeepsInv | backend/app/services/event_bus.py:61-112 | every step keeps: each ring is an end of the history missing only expired events, each queue is the unread end of what was published since registration, and the wiring is exact |
| BusRuns.SnapshotRefinesSpecification | backend/app/services/event_bus.py:88-112 | after every run with a non-decreasing clock, a snapshot is the last 256 events ever published on the channel less those older than 120 seconds, so collecting rings is never observable |
| BusRuns.Handoff | backend/app/services/event_bus.py:85-99 | for every run cut at a registration: the snapshot is the last 256 unexpired events published before it; what was received is a prefix of the snapshot and then the delivered ones of the events published after it, in order; the queue is their contiguous end of at most 256; received, dropped and queued add up to those published after it |
| BusRuns.EverySubscriptionHandedOver | backend/app/services/event_bus.py:85-99 | the same accounting for every subscription alive at the end of any run |
| BusRuns.DropsIffFull | backend/app/services/event_bus.py:73-83 | over every run, a publication reaches the subscribers of its channel and no others, and costs one its oldest event exactly when 256 are queued |
| BusRuns.RingCollectedIff | backend/app/services/event_bus.py:107-112 | over every run, closing a subscription collects the ring exactly when nobody listens any more and all of it is older than 120 seconds, and touches no other channel |
| BusRuns.ChannelKeyIffSubscriber | backend/app/services/event_bus.py:100-106 | over every run a channel key exists iff the channel has a subscriber |
| BusRuns.NoEventTwice | backend/app/services/event_bus.py:88-92 | if no event is published twice on the channel, no subscriber receives one twice, replay and live together |
| CompressionLock.StepKeepsInv | backend/app/services/compression_service.py:340-447 | every step, crashes included, keeps exclusion, the truth of the flag, the exact counter and the breaker |
| CompressionLock.MutualExclusion | backend/app/services/compression_service.py:367-397 | over every interleaving of any number of callers and processes at most one run holds the flag, and the row shows it exactly while one does, unless a run died holding it |
| CompressionLock.BreakerIsExact | backend/app/services/compression_service.py:414-435 | when no report is due or lost, the stored counter is the streak of escaped exceptions at the end of the run's own list of outcomes; disabled implies three, and three without any reset imply disabled |
| CompressionLock.LostReportIsNeverCounted | backend/app/services/compression_service.py:436-439 | after a report that could not be written the counter stays, for ever, at the streak before that outcome, one short when it was a failure |
| CompressionLock.DisabledDispatchesNothing | backend/app/services/compression_service.py:378-395 | from a disabled thread no run is ever dispatched until an administrator resets |
| CompressionLock.WinsFlagIff | backend/app/services/compression_service.py:378-395 | a caller wins the flag exactly when no run holds it, none died holding it and the thread is not disabled; a reset takes the last of these away |
| CompressionLock.GetsStuckIff | backend/app/services/compression_service.py:376-441 | after a step the flag is up with no run left to clear it iff it was so before, a report fails to be written, the caller fails between winning the flag and creating the task, or a process dies with a run that holds it |
| CompressionLock.StuckForever | backend/app/services/compression_service.py:412-439 | an abandoned flag stays up for ever, no compression of the thread ends again and the counter stays |
| CompressionLock.LocalSetFailsIff | backend/app/services/compression_service.py:441-445 | a listed, working run can drop out of its process's set while it works iff the done-callback of an earlier run of that process is still to come |
| CompressionLock.LocalSetIsNotALock | backend/app/services/compression_service.py:413-445 | a run from the initial state at whose end a compression works and the set of its process is without it |
| CompressionThread.ThreadStore.EstimateDialogueTokens | backend/app/services/compression_service.py:51-68 | the loop adds up user and assistant messages only |
| CompressionThread.ThreadStore.Select | backend/app/services/compression_service.py:193-220 | what is selected, and when nothing is |
| CompressionThread.SelectsIff | backend/app/domain/compression/policy.py:15-27 | something is selected exactly when more messages are uncompressed than are kept, the number kept is not zero, and the uncompressed dialogue weighs at least the threshold |
| CompressionThread.ThresholdIsWeight | backend/app/services/compression_service.py:209-213 | with something to pick there is one threshold at which selection turns; a further uncompressed message raises it by its length if it is dialogue and by nothing otherwise; it is zero without dialogue |
| CompressionThread.ThreadStore.Commit | backend/app/services/compression_service.py:247-276 | flags, watermark and the agent's memory after the transaction, and nothing else changed |
| CompressionThread.CommitWritesOneMemory | backend/app/services/compression_service.py:249-258 | the agent's memory gains the messages of the commit and one number, every other agent's stays |
| CompressionThread.SelectionIsNextStretch | backend/app/domain/compression/policy.py:20-27 | a selection is a non-empty stretch right after the flagged prefix and spares the newest keep_recent messages |
| CompressionThread.SelectsOnlyDialogueIff | backend/app/services/compression_service.py:193-213 | a selection consists of user and assistant messages iff everything between the flagged prefix and the kept tail does |
| CompressionThread.AToolMessageIsSelected | backend/app/services/compression_service.py:179-203 | the failing input: a thread in which a message that is neither is selected |
| CompressionThread.CommitKeepsPartitionIff | backend/app/services/compression_service.py:271-276 | committing an older selection keeps flags, watermark and counts in agreement iff nothing was committed in between, and moves the watermark back iff the other commit went further |
| CompressionThread.EveryRunIsPartitioned | backend/app/services/compression_service.py:193-284 | over every run with appends between selection and commit, the flagged messages are a prefix, exactly those at or before the watermark, and the agents' counts add up to their number |
| CompressionThread.WatermarkNeverDecreases | backend/app/services/compression_service.py:293-308 | over every such run the watermark only moves forward |
| CompressionThread.DeletionKeepsPartitionIff | backend/app/api/super_conversation.py:477-478 | deleting a message keeps the flagged ones a prefix and exactly those at or before the watermark, and keeps the counts right iff it was not flagged |
| CompressionThread.CutBackKeepsPartitionIff | backend/app/api/super_conversation.py:518-524 | the same for a rewind: the counts stay right iff no flagged message is cut off |
| Segments.MemoryRow.Compress | backend/app/services/compression_service.py:235-270 | the text and the total after one compression, on a new and on an existing memory |
| Segments.MemoryRow.Upsert | backend/app/services/memory_service.py:114-148 | the same for an upsert, whose first write is stored raw |
| Segments.CountAcrossLines | backend/app/services/compression_service.py:252 | non-overlapping counting of the marker is additive across a line break |
| Segments.WriteAdvances | backend/app/services/compression_service.py:251-258 | one write raises the next number by one plus the markers in its summary, stripping included |
| Segments.NumberingIsExact | backend/app/services/compression_service.py:251-269 | after any log of writes that began with a compression, the next number and the stored total are exactly determined by the log |
| Segments.NumberedByPositionIff | backend/app/services/compression_service.py:235-258 | the text is the one whose headings are numbered 1..k by position iff no summary before the last contains the marker |
| Segments.TextIsItsParts | backend/app/services/compression_service.py:235-258 | the whole text after any log of writes, part by part and written out: numbered 1 to k with their stamps, counts and stripped summaries when no summary before the last contains the marker, and going on from the markers of a raw first text; the total is the sum of the sizes |
| Segments.PartBegins | backend/app/services/compression_service.py:241 | every numbered part begins with the marker, its number and the bracket |
| Chunker.ChunkText | backend/app/services/knowledge_service.py:75-88 | the loop keeps exactly the non-blank windows of the specification; an empty text comes before the size check |
| Chunker.WindowShape | backend/app/services/knowledge_service.py:81-87 | windows start a step apart, all but the last are exactly chunk_size long, the last ends the text, and later ones are longer than the overlap |
| Chunker.NothingSkippedIff | backend/app/services/knowledge_service.py:78-87 | for every size above the overlap, negative ones included, no position is skipped iff the overlap is not negative, one window is enough, or the text is empty |
| Chunker.EverySolidCharacterIsKept | backend/app/services/knowledge_service.py:82-85 | every position that is not whitespace lies in a kept chunk |
| Chunker.KeptIsSolid | backend/app/services/knowledge_service.py:84-85 | every kept chunk has a character that is not whitespace |
| Chunker.SliceEndIs | backend/app/services/knowledge_service.py:83 | where a window ends, for every size, negative ones included |
| Chunker.RebuildsIffNoneBlank | backend/app/services/knowledge_service.py:82-88 | the first chunk and the later ones less their overlap prefixes rebuild the text iff no window was blank |
| Similarity.CauchySchwarz | backend/app/services/knowledge_service.py:265-267 | the truncated dot product squared is at most the product of the full squared norms, for any lengths |
| Similarity.ScoreBounded | backend/app/services/knowledge_service.py:259-270 | every score lies between -1 and 1 |
| Similarity.SelfScore | backend/app/services/knowledge_service.py:259-270 | a vector scores 1 with itself iff it has a non-zero component, and 0 otherwise |
| Similarity.ScoreIgnoresLength | backend/app/services/knowledge_service.py:265-270 | positive scaling of both vectors, each by its own factor, leaves the score unchanged |
| Similarity.Fit | backend/app/services/live_embedder.py:158-168 | any vector is cut or zero-padded to exactly 1536 components |
| Similarity.PaddingKeepsScore | backend/app/services/live_embedder.py:163-167 | padding vectors that fit changes no score, empty ones included |
| Similarity.FittingKeepsNormIff | backend/app/services/live_embedder.py:163-167 | fitting keeps the norm iff what is cut off is zero |
| Similarity.CycleFills | backend/app/services/live_embedder.py:32-35 | any non-empty digest, repeated and cut, fills exactly the width, byte i modulo its length at component i |
| Search.SearchTop | backend/app/services/knowledge_service.py:273-293 | the answer is the top slice of the stable descending sort of the scored rows |
| Search.SortRanks | backend/app/services/knowledge_service.py:292 | the sort is a permutation, descending, and keeps the row order of equal scores |
| Search.SearchReturnsTheTop | backend/app/services/knowledge_service.py:282-293 | the answer is a ranked selection of the size asked for, and no omitted row comes before a returned one |
| Search.HitsTellOfTheirRows | backend/app/services/knowledge_service.py:282-293 | every answer names a row of the base, and its score times the two norms is the dot product of the query and that row's embedding, 0 where a norm is 0 |
| Search.BestHitScoresOne | backend/app/services/knowledge_service.py:282-293 | if some row is a positive multiple of a non-zero query, the first hit scores 1 |
| Search.PaddingKeepsRanking | backend/app/services/live_embedder.py:158-168 | zero-padding to the column width gives the same answer as the raw vectors |
| Bindings.Tables.RescopeInstalled | backend/app/db/init_db.py:698-710 | exactly the installed remote skills scoped to everyone become worker skills |
| Bindings.Tables.Backfill | backend/app/db/init_db.py:727-744 | the nested loops end with the old bindings and every pair the scopes ask for, and count what they add |
| Bindings.Tables.Prune | backend/app/db/init_db.py:746-758 | exactly the worker-scoped bindings of supervisors other than the builder's go, and the count is right |
| Bindings.Tables.Reconcile | backend/app/db/init_db.py:684-765 | the bindings end as (old and wanted) without strays; the answer is the number of new bindings left |
| Bindings.ReconciledPair | backend/app/db/init_db.py:689-756 | for every skill and agent, in the words of the rule, whether they are bound afterwards |
| Bindings.RescopingOfOne | backend/app/db/init_db.py:699-708 | exactly which skills are corrected, and to what |
| Bindings.WantedIsNoStray | backend/app/db/init_db.py:731-756 | no pair is both wanted and pruned |
| Bindings.SecondRunChangesNothing | backend/app/db/init_db.py:684-765 | run on its own result the job rescopes, adds and prunes nothing, and all scope promises hold |
| Bindings.OnlyOrdinarySupersLose | backend/app/db/init_db.py:719-756 | the builder's supervisor and agents of other kinds never lose a binding |
| Bindings.RescopingReachesAllIff | backend/app/db/init_db.py:698-708 | the correction reaches every unscoped installed skill iff none has a null scope |
| Bindings.NullScopeIsInert | backend/app/db/init_db.py:699-715 | bindings of a skill with a null scope are neither added nor pruned |
| Slugs.NormaliseJoinsWords | backend/app/domain/import_source.py:89-91 | substituting and stripping is the same as joining the alphanumeric runs of the lower-cased text by single hyphens |
| Slugs.SlugifyIsIdempotent | backend/app/domain/import_source.py:89-91 | the answer is a slug, and is its own slug |
| Slugs.CaseDoesNotMatter | backend/app/domain/import_source.py:90 | texts that differ in ASCII case only have the same slug |
| Slugs.FallsBackIff | backend/app/domain/import_source.py:89-91 | the caller's word is used exactly when the lower-cased name has no letter a-z and no digit |
| Slugs.SourceIs | backend/app/services/agent_service.py:162 | the hint is used exactly when it has a character that is not whitespace |
| Slugs.FirstFree | backend/app/services/agent_service.py:164-166 | the loop ends with the first free candidate after at most as many refusals as there are taken slugs |
| Slugs.AllocateSlug | backend/app/services/agent_service.py:157-167 | a given slug is kept; otherwise the result is a slug, free, and the base or base-k for the least free k from 2 |
| Slugs.Pigeonhole | backend/app/services/agent_service.py:165-166 | candidates are pairwise different, so n taken slugs refuse at most n of them |

## Left out

- HTTP routing, authentication, SSE encoding, storage, WeChat, the LLM client, the agent executor, migrations and the frontend: I/O or unseen libraries.
- The lost update on the queue limit: counting and inserting are one step of the model, two statements of the code. So are reading and marking when a tick pops, where the code skips rows that a deletion has locked.
- Autostart.Host.AutostartAndTrigger: takes the call as one step on the row (slow requests and starts are steps of HumanGate), and does not model a mission deleted before the call, failures of the refresh after a committed transition, or task creation failing.
- Inbox.HistoriesStayConsistent: takes requests one after the other, each chat as its two transactions back to back; the interleaved deletion is DeleteInsideAChatDangles. Deleting a whole thread, which does not touch the queue, is not in it, and neither is offloading of long contents.
- CompressionThread.EveryRunIsPartitioned: one compression of the thread at a time and strictly increasing time stamps; overlapping commits are CommitKeepsPartitionIff. Messages taken out of the thread are not steps of these runs; what they do is DeletionKeepsPartitionIff and CutBackKeepsPartitionIff. Counts written by the memory skills are not part of the sum.
- Segments.NumberingIsExact: memories whose first write is a compression; a first upsert stores its text without a heading.
- Similarity.ScoreBounded: exact reals with a given square root; rounding is not modelled.
- Slugs.AllocateSlug: the search against one set of taken slugs; a second creator between search and insert meets the unique index instead.
- Administrator resets other than of the disabled flag, three-level compression settings, retry wrappers, the lock of the bus as a lock (each locked section is one step), best-effort `except` blocks other than those named.
- `builder_claim_service.py`: its read-then-write is not a compare-and-swap, so it excludes nobody by itself.
- `index_document`: its sessions do not flush before the duplicate check, so it promises nothing about duplicates within one document.
- `seed_builtin_skills`, auto-approval, readiness resolution and settings ranges: they would add only easy members. `tick_wallclock_exceeded` likewise.
