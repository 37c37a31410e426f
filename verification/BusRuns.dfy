/**
Whole runs of the bus with a non-decreasing clock, any number of channels, publishers and
subscribers coming and going. A World is the bus together with the history a specification would
keep: every event ever published on a channel, and, for each subscription, what became of every
event since it registered.
*/
module BusRuns {
  import opened Prelude
  import opened EventBus

  /**
  One subscription. start: how long the channel's history was at registration. fates: for the
  events published since then, oldest first, whether the subscriber got them (true) or the full
  queue dropped them (false); events past |fates| are still queued.
  */
  datatype Sub = Sub(
    channel: Channel, start: nat, cutoff: real, snapshot: seq<Event>,
    shown: nat, fates: seq<bool>, got: seq<Event>)
  {
    /** Everything the generator has yielded. */
    function Received(): seq<Event>
      requires shown <= |snapshot|
    {
      snapshot[..shown] + got
    }
  }

  datatype World = World(
    bus: Bus, history: map<Channel, seq<Event>>, subs: map<QueueId, Sub>, clock: real)
  {
    function Hist(c: Channel): seq<Event> {
      if c in history then history[c] else []
    }
  }

  const INIT := World(Bus(map[], map[], map[]), map[], map[], 0.0)

  datatype Step =
    | Publish(c: Channel, e: Event, now: real)
    | Subscribe(c: Channel, q: QueueId, now: real)
    | Next(q: QueueId)
    | Close(q: QueueId, now: real)

  predicate Enabled(w: World, step: Step) {
    match step
    case Publish(_, _, now) => now >= w.clock
    case Subscribe(_, q, now) => now >= w.clock && q !in w.subs && q !in w.bus.queues
    case Next(q) =>
      q in w.subs && q in w.bus.queues && (w.subs[q].shown < |w.subs[q].snapshot| || w.bus.queues[q] != [])
    case Close(q, now) => now >= w.clock && q in w.subs
  }

  /** A subscription's record when e reaches its queue. */
  function Witnessed(s: Sub, queue: seq<Event>): Sub {
    if |queue| >= MAX_QUEUE then s.(fates := s.fates + [false]) else s
  }

  function Apply(w: World, step: Step): World
    requires Enabled(w, step)
  {
    match step
    case Publish(c, e, now) =>
      World(w.bus.Published(c, e), w.history[c := w.Hist(c) + [e]],
            map q <- w.subs :: if q in w.bus.Subscribers(c) && q in w.bus.queues
                               then Witnessed(w.subs[q], w.bus.queues[q]) else w.subs[q],
            now)
    case Subscribe(c, q, now) =>
      World(w.bus.Registered(c, q), w.history,
            w.subs[q := Sub(c, |w.Hist(c)|, now - REPLAY_TTL_SEC, w.bus.Snapshot(c, now), 0, [], [])],
            now)
    case Next(q) =>
      var s := w.subs[q];
      if s.shown < |s.snapshot| then w.(subs := w.subs[q := s.(shown := s.shown + 1)])
      else w.(bus := w.bus.Received(q),
              subs := w.subs[q := s.(fates := s.fates + [true], got := s.got + [w.bus.queues[q][0]])])
    case Close(q, now) =>
      World(w.bus.Cleaned(w.subs[q].channel, q, now), w.history, w.subs - {q}, now)
  }

  predicate ValidRun(w: World, steps: seq<Step>)
    decreases steps
  {
    steps == [] || (Enabled(w, steps[0]) && ValidRun(Apply(w, steps[0]), steps[1..]))
  }

  function Run(w: World, steps: seq<Step>): World
    requires ValidRun(w, steps)
    decreases steps
  {
    if steps == [] then w else Run(Apply(w, steps[0]), steps[1..])
  }

  // ---------------------------------------------------------------- the invariant

  function Select(es: seq<Event>, fates: seq<bool>): seq<Event>
    requires |es| == |fates|
  {
    if es == [] then []
    else Select(es[..|es| - 1], fates[..|es| - 1]) + (if fates[|es| - 1] then [es[|es| - 1]] else [])
  }

  function CountDropped(fates: seq<bool>): nat {
    if fates == [] then 0
    else CountDropped(fates[..|fates| - 1]) + (if fates[|fates| - 1] then 0 else 1)
  }

  /** The ring is the end of the history, and what it misses of the last 256 has expired. */
  ghost predicate RingOk(ring: seq<Event>, hist: seq<Event>, clock: real) {
    && |ring| <= |hist| && |ring| <= REPLAY_MAXLEN
    && ring == hist[|hist| - |ring|..]
    && forall i | 0 <= i < |hist| - |ring| && i >= |hist| - REPLAY_MAXLEN :: hist[i].ts < clock - REPLAY_TTL_SEC
  }

  /** The queue is what is left of the events since registration; got is the delivered ones. */
  ghost predicate QueueOk(s: Sub, queue: seq<Event>, hist: seq<Event>) {
    && s.start + |s.fates| <= |hist|
    && queue == hist[s.start + |s.fates|..]
    && |queue| <= MAX_QUEUE
    && s.got == Select(hist[s.start..s.start + |s.fates|], s.fates)
  }

  ghost predicate SnapshotOk(s: Sub, hist: seq<Event>) {
    && s.start <= |hist|
    && s.snapshot == Unexpired(Last(hist[..s.start], REPLAY_MAXLEN), s.cutoff)
    && s.shown <= |s.snapshot|
    && (s.shown < |s.snapshot| ==> s.got == [])
  }

  ghost predicate SubOk(s: Sub, queue: seq<Event>, hist: seq<Event>) {
    QueueOk(s, queue, hist) && SnapshotOk(s, hist)
  }

  ghost predicate Rings(w: World) {
    forall c :: RingOk(w.bus.Ring(c), w.Hist(c), w.clock)
  }

  /** A channel key exists iff the channel has a subscriber, and it holds exactly those. */
  ghost predicate Wiring(w: World) {
    && w.bus.queues.Keys == w.subs.Keys
    && (forall c <- w.bus.channels :: w.bus.channels[c] != {})
    && (forall c, q :: q in w.bus.Subscribers(c) <==> q in w.subs && w.subs[q].channel == c)
  }

  ghost predicate Subs(w: World)
    requires w.bus.queues.Keys == w.subs.Keys
  {
    forall q <- w.subs :: SubOk(w.subs[q], w.bus.queues[q], w.Hist(w.subs[q].channel))
  }

  ghost predicate Inv(w: World) {
    Rings(w) && Wiring(w) && Subs(w)
  }

  // ---------------------------------------------------------------- filtering by age

  lemma {:induction false} UnexpiredConcat(a: seq<Event>, b: seq<Event>, cutoff: real)
    ensures Unexpired(a + b, cutoff) == Unexpired(a, cutoff) + Unexpired(b, cutoff)
  {
    if a == [] {
      assert a + b == b;
    } else {
      assert (a + b)[1..] == a[1..] + b;
      UnexpiredConcat(a[1..], b, cutoff);
    }
  }

  lemma {:induction false} UnexpiredEmptyIff(es: seq<Event>, cutoff: real)
    ensures Unexpired(es, cutoff) == [] <==> forall i | 0 <= i < |es| :: es[i].ts < cutoff
  {
    if es == [] {
    } else {
      UnexpiredEmptyIff(es[1..], cutoff);
      assert forall i | 1 <= i < |es| :: es[i] == es[1..][i - 1];
    }
  }

  /** What the ring has lost is never visible to a reader whose clock has not gone back. */
  lemma RingShowsSpecification(ring: seq<Event>, hist: seq<Event>, clock: real, now: real)
    requires RingOk(ring, hist, clock) && now >= clock
    ensures Unexpired(ring, now - REPLAY_TTL_SEC) == Unexpired(Last(hist, REPLAY_MAXLEN), now - REPLAY_TTL_SEC)
  {
    var cutoff := now - REPLAY_TTL_SEC;
    var last := Last(hist, REPLAY_MAXLEN);
    var from := |hist| - |last|;
    var missed := hist[from..|hist| - |ring|];
    assert last == missed + ring;
    UnexpiredConcat(missed, ring, cutoff);
    UnexpiredEmptyIff(missed, cutoff);
  }

  lemma RingPublish(ring: seq<Event>, hist: seq<Event>, clock: real, e: Event, now: real)
    requires RingOk(ring, hist, clock) && now >= clock
    ensures RingOk(Push(ring, e, REPLAY_MAXLEN), hist + [e], now)
  {
    var hist' := hist + [e];
    var ring' := Push(ring, e, REPLAY_MAXLEN);
    assert ring' == hist'[|hist'| - |ring'|..];
  }

  lemma RingCollect(ring: seq<Event>, hist: seq<Event>, clock: real, now: real)
    requires RingOk(ring, hist, clock) && now >= clock
    requires Unexpired(ring, now - REPLAY_TTL_SEC) == []
    ensures RingOk([], hist, now)
  {
    UnexpiredEmptyIff(ring, now - REPLAY_TTL_SEC);
    forall i | 0 <= i < |hist| && i >= |hist| - REPLAY_MAXLEN
      ensures hist[i].ts < now - REPLAY_TTL_SEC
    {
      if i >= |hist| - |ring| {
        assert hist[i] == ring[i - (|hist| - |ring|)];
      }
    }
  }

  // ---------------------------------------------------------------- one subscription

  lemma SliceAppend(hist: seq<Event>, e: Event, i: nat, j: nat)
    requires i <= j <= |hist|
    ensures (hist + [e])[i..j] == hist[i..j] && (hist + [e])[j..] == hist[j..] + [e]
  {
  }

  lemma SelectSnoc(es: seq<Event>, fates: seq<bool>, e: Event, fate: bool)
    requires |es| == |fates|
    ensures Select(es + [e], fates + [fate]) == Select(es, fates) + (if fate then [e] else [])
  {
    assert (es + [e])[..|es|] == es && (fates + [fate])[..|es|] == fates;
  }

  lemma PutInRoom(s: Sub, queue: seq<Event>, hist: seq<Event>, e: Event)
    requires QueueOk(s, queue, hist) && |queue| < MAX_QUEUE
    ensures QueueOk(s, queue + [e], hist + [e])
  {
    SliceAppend(hist, e, s.start, s.start + |s.fates|);
  }

  lemma PutInFull(s: Sub, queue: seq<Event>, hist: seq<Event>, e: Event)
    requires QueueOk(s, queue, hist) && |queue| == MAX_QUEUE
    ensures QueueOk(s.(fates := s.fates + [false]), queue[1..] + [e], hist + [e])
  {
    var k := s.start + |s.fates|;
    SliceAppend(hist, e, s.start, k + 1);
    assert hist[s.start..k + 1] == hist[s.start..k] + [hist[k]];
    SelectSnoc(hist[s.start..k], s.fates, hist[k], false);
    assert queue[1..] == hist[k + 1..];
  }

  lemma SubPublish(s: Sub, queue: seq<Event>, hist: seq<Event>, e: Event)
    requires SubOk(s, queue, hist)
    ensures SubOk(Witnessed(s, queue), Push(queue, e, MAX_QUEUE), hist + [e])
  {
    SliceAppend(hist, e, 0, s.start);
    assert (hist + [e])[..s.start] == hist[..s.start];
    if |queue| >= MAX_QUEUE {
      PutInFull(s, queue, hist, e);
    } else {
      PutInRoom(s, queue, hist, e);
    }
  }

  lemma SubGet(s: Sub, queue: seq<Event>, hist: seq<Event>)
    requires SubOk(s, queue, hist) && queue != [] && s.shown == |s.snapshot|
    ensures SubOk(s.(fates := s.fates + [true], got := s.got + [queue[0]]), queue[1..], hist)
  {
    var k := s.start + |s.fates|;
    assert hist[s.start..k + 1] == hist[s.start..k] + [hist[k]];
    SelectSnoc(hist[s.start..k], s.fates, hist[k], true);
    assert queue[1..] == hist[k + 1..];
  }

  lemma SubShow(s: Sub, queue: seq<Event>, hist: seq<Event>)
    requires SubOk(s, queue, hist) && s.shown < |s.snapshot|
    ensures SubOk(s.(shown := s.shown + 1), queue, hist)
  {
  }

  // ---------------------------------------------------------------- steps

  lemma CloseKeepsRings(w: World, q: QueueId, now: real)
    requires Rings(w) && Enabled(w, Close(q, now))
    ensures Rings(Apply(w, Close(q, now)))
  {
    var w' := Apply(w, Close(q, now));
    forall d ensures RingOk(w'.bus.Ring(d), w'.Hist(d), w'.clock) {
      assert RingOk(w.bus.Ring(d), w.Hist(d), w.clock);
      if w'.bus.Ring(d) != w.bus.Ring(d) {
        RingCollect(w.bus.Ring(d), w.Hist(d), w.clock, now);
      }
    }
  }

  lemma PublishKeepsRings(w: World, c: Channel, e: Event, now: real)
    requires Rings(w) && Enabled(w, Publish(c, e, now))
    ensures Rings(Apply(w, Publish(c, e, now)))
  {
    var w' := Apply(w, Publish(c, e, now));
    forall d ensures RingOk(w'.bus.Ring(d), w'.Hist(d), w'.clock) {
      assert RingOk(w.bus.Ring(d), w.Hist(d), w.clock);
      if d == c {
        RingPublish(w.bus.Ring(d), w.Hist(d), w.clock, e, now);
      }
    }
  }

  lemma RingLater(ring: seq<Event>, hist: seq<Event>, clock: real, now: real)
    requires RingOk(ring, hist, clock) && now >= clock
    ensures RingOk(ring, hist, now)
  {
  }

  lemma StepKeepsRings(w: World, step: Step)
    requires Rings(w) && Enabled(w, step)
    ensures Rings(Apply(w, step))
  {
    hide RingOk, Unexpired;
    if step.Publish? {
      PublishKeepsRings(w, step.c, step.e, step.now);
    } else if step.Close? {
      CloseKeepsRings(w, step.q, step.now);
    } else {
      var w' := Apply(w, step);
      assert w'.bus.replay == w.bus.replay && w'.history == w.history;
      forall d ensures RingOk(w'.bus.Ring(d), w'.Hist(d), w'.clock) {
        assert RingOk(w.bus.Ring(d), w.Hist(d), w.clock);
        RingLater(w.bus.Ring(d), w.Hist(d), w.clock, w'.clock);
      }
    }
  }

  lemma StepKeepsWiring(w: World, step: Step)
    requires Wiring(w) && Enabled(w, step)
    ensures Wiring(Apply(w, step))
  {
    var w' := Apply(w, step);
    if step.Publish? || step.Next? {
      assert w'.bus.channels == w.bus.channels;
      assert forall c :: w'.bus.Subscribers(c) == w.bus.Subscribers(c);
    } else if step.Close? {
      var c := w.subs[step.q].channel;
      assert step.q in w.bus.Subscribers(c);
      assert forall d :: w'.bus.Subscribers(d) == w.bus.Subscribers(d) - {step.q};
    } else {
      assert forall d :: w'.bus.Subscribers(d)
                         == w.bus.Subscribers(d) + if d == step.c then {step.q} else {};
    }
  }

  lemma NewSubOk(ring: seq<Event>, hist: seq<Event>, clock: real, c: Channel, now: real)
    requires RingOk(ring, hist, clock) && now >= clock
    ensures var cutoff := now - REPLAY_TTL_SEC;
            SubOk(Sub(c, |hist|, cutoff, Unexpired(ring, cutoff), 0, [], []), [], hist)
  {
    RingShowsSpecification(ring, hist, clock, now);
    assert hist[..|hist|] == hist;
  }

  lemma PublishKeepsSub(w: World, c: Channel, e: Event, now: real, q: QueueId)
    requires Wiring(w) && Subs(w) && q in w.subs && now >= w.clock
    ensures var w' := Apply(w, Publish(c, e, now)); SubOk(w'.subs[q], w'.bus.queues[q], w'.Hist(w'.subs[q].channel))
  {
    var s := w.subs[q];
    assert SubOk(s, w.bus.queues[q], w.Hist(s.channel));
    if s.channel == c {
      assert q in w.bus.Subscribers(c);
      SubPublish(s, w.bus.queues[q], w.Hist(c), e);
    } else {
      assert q !in w.bus.Subscribers(c);
    }
  }

  lemma NextKeepsSub(w: World, p: QueueId, q: QueueId)
    requires Wiring(w) && Subs(w) && q in w.subs && Enabled(w, Next(p))
    ensures var w' := Apply(w, Next(p)); SubOk(w'.subs[q], w'.bus.queues[q], w'.Hist(w'.subs[q].channel))
  {
    var s := w.subs[q];
    var queue := w.bus.queues[q];
    var hist := w.Hist(s.channel);
    var w' := Apply(w, Next(p));
    assert SubOk(s, queue, hist) && w'.Hist(s.channel) == hist;
    if q != p {
      assert w'.subs[q] == s && w'.bus.queues[q] == queue;
    } else if s.shown < |s.snapshot| {
      SubShow(s, queue, hist);
      assert w'.subs[q] == s.(shown := s.shown + 1) && w'.bus.queues[q] == queue;
    } else {
      SubGet(s, queue, hist);
    }
  }

  lemma SubscribeKeepsSub(w: World, c: Channel, p: QueueId, now: real, q: QueueId)
    requires Rings(w) && Wiring(w) && Subs(w) && Enabled(w, Subscribe(c, p, now)) && (q in w.subs || q == p)
    ensures var w' := Apply(w, Subscribe(c, p, now)); SubOk(w'.subs[q], w'.bus.queues[q], w'.Hist(w'.subs[q].channel))
  {
    hide RingOk, Unexpired, SubOk;
    if q == p {
      assert RingOk(w.bus.Ring(c), w.Hist(c), w.clock);
      NewSubOk(w.bus.Ring(c), w.Hist(c), w.clock, c, now);
    } else {
      assert SubOk(w.subs[q], w.bus.queues[q], w.Hist(w.subs[q].channel));
    }
  }

  lemma StepKeepsSub(w: World, step: Step, q: QueueId)
    requires Inv(w) && Enabled(w, step)
    requires var w' := Apply(w, step); q in w'.subs && q in w'.bus.queues
    ensures var w' := Apply(w, step); SubOk(w'.subs[q], w'.bus.queues[q], w'.Hist(w'.subs[q].channel))
  {
    match step
    case Publish(c, e, now) => PublishKeepsSub(w, c, e, now, q);
    case Subscribe(c, p, now) => SubscribeKeepsSub(w, c, p, now, q);
    case Next(p) => NextKeepsSub(w, p, q);
    case Close(_, _) => assert SubOk(w.subs[q], w.bus.queues[q], w.Hist(w.subs[q].channel));
  }

  lemma StepKeepsInv(w: World, step: Step)
    requires Inv(w) && Enabled(w, step)
    ensures Inv(Apply(w, step))
  {
    StepKeepsRings(w, step);
    StepKeepsWiring(w, step);
    var w' := Apply(w, step);
    forall q <- w'.subs ensures SubOk(w'.subs[q], w'.bus.queues[q], w'.Hist(w'.subs[q].channel)) {
      StepKeepsSub(w, step, q);
    }
  }

  lemma {:induction false} RunKeepsInv(w: World, steps: seq<Step>)
    requires Inv(w) && ValidRun(w, steps)
    ensures Inv(Run(w, steps))
    decreases steps
  {
    if steps == [] {
    } else {
      StepKeepsInv(w, steps[0]);
      RunKeepsInv(Apply(w, steps[0]), steps[1..]);
    }
  }

  // ---------------------------------------------------------------- what it gives

  /** The events a run publishes on a channel, read off the run itself. */
  function PublishedOn(steps: seq<Step>, c: Channel): seq<Event> {
    if steps == [] then []
    else (if steps[0].Publish? && steps[0].c == c then [steps[0].e] else []) + PublishedOn(steps[1..], c)
  }

  lemma StepHistory(w: World, step: Step, c: Channel)
    requires Enabled(w, step)
    ensures Apply(w, step).Hist(c) == w.Hist(c) + (if step.Publish? && step.c == c then [step.e] else [])
  {
  }

  lemma {:induction false} HistoryIsWhatWasPublished(w: World, steps: seq<Step>, c: Channel)
    requires ValidRun(w, steps)
    ensures Run(w, steps).Hist(c) == w.Hist(c) + PublishedOn(steps, c)
    decreases steps
  {
    hide Apply, Enabled;
    if steps == [] {
    } else {
      StepHistory(w, steps[0], c);
      HistoryIsWhatWasPublished(Apply(w, steps[0]), steps[1..], c);
      var first := if steps[0].Publish? && steps[0].c == c then [steps[0].e] else [];
      assert w.Hist(c) + first + PublishedOn(steps[1..], c) == w.Hist(c) + (first + PublishedOn(steps[1..], c));
    }
  }

  lemma ReachableInv(steps: seq<Step>)
    requires ValidRun(INIT, steps)
    ensures Inv(Run(INIT, steps))
    ensures forall c :: Run(INIT, steps).Hist(c) == PublishedOn(steps, c)
  {
    assert Inv(INIT) by {
      assert forall c :: RingOk(INIT.bus.Ring(c), INIT.Hist(c), 0.0);
    }
    RunKeepsInv(INIT, steps);
    forall c ensures Run(INIT, steps).Hist(c) == PublishedOn(steps, c) {
      HistoryIsWhatWasPublished(INIT, steps, c);
    }
  }

  /**
  The ring, its bound and its garbage collection refine the simple specification: after every
  run, a snapshot is the last 256 events ever published on the channel, less those older than
  120 seconds.
  */
  lemma SnapshotRefinesSpecification(steps: seq<Step>, c: Channel, now: real)
    requires ValidRun(INIT, steps) && now >= Run(INIT, steps).clock
    ensures Run(INIT, steps).bus.Snapshot(c, now)
            == Unexpired(Last(PublishedOn(steps, c), 256), now - 120.0)
  {
    ReachableInv(steps);
    var w := Run(INIT, steps);
    assert RingOk(w.bus.Ring(c), w.Hist(c), w.clock);
    RingShowsSpecification(w.bus.Ring(c), w.Hist(c), w.clock, now);
  }

  lemma {:induction false} SelectCounts(es: seq<Event>, fates: seq<bool>)
    requires |es| == |fates|
    ensures |Select(es, fates)| + CountDropped(fates) == |es|
  {
    if es == [] {
    } else {
      SelectCounts(es[..|es| - 1], fates[..|es| - 1]);
    }
  }

  /**
  What the subscription has yielded is a prefix of its snapshot followed, once that is exhausted,
  by the delivered ones of the events published since; the queue is the contiguous end of those,
  at most 256 long; and received, dropped and queued add up to published.
  */
  ghost predicate HandedOver(s: Sub, queue: seq<Event>, hist: seq<Event>) {
    && s.shown <= |s.snapshot|
    && s.Received() == s.snapshot[..s.shown] + s.got
    && (s.got != [] ==> s.shown == |s.snapshot|)
    && s.start + |s.fates| <= |hist|
    && s.snapshot == Unexpired(Last(hist[..s.start], REPLAY_MAXLEN), s.cutoff)
    && s.got == Select(hist[s.start..s.start + |s.fates|], s.fates)
    && queue == hist[s.start + |s.fates|..] && |queue| <= MAX_QUEUE
    && |s.got| + CountDropped(s.fates) + |queue| == |hist| - s.start
  }

  lemma SubHandedOver(s: Sub, queue: seq<Event>, hist: seq<Event>)
    requires SubOk(s, queue, hist)
    ensures HandedOver(s, queue, hist)
  {
    SelectCounts(hist[s.start..s.start + |s.fates|], s.fates);
  }

  /** Drop-oldest delivery after replay, for every subscription of every run. */
  lemma EverySubscriptionHandedOver(steps: seq<Step>, q: QueueId)
    requires ValidRun(INIT, steps)
    requires q in Run(INIT, steps).subs
    ensures var w := Run(INIT, steps);
            q in w.bus.queues && HandedOver(w.subs[q], w.bus.queues[q], PublishedOn(steps, w.subs[q].channel))
  {
    ReachableInv(steps);
    var w := Run(INIT, steps);
    SubHandedOver(w.subs[q], w.bus.queues[q], w.Hist(w.subs[q].channel));
  }

  /** The same with the channel's history cut at the registration, which happened at now. */
  ghost predicate HandedOverSince(s: Sub, queue: seq<Event>, earlier: seq<Event>, since: seq<Event>, now: real) {
    && s.shown <= |s.snapshot|
    && s.Received() == s.snapshot[..s.shown] + s.got
    && (s.got != [] ==> s.shown == |s.snapshot|)
    && s.snapshot == Unexpired(Last(earlier, 256), now - 120.0)
    && |s.fates| <= |since|
    && s.got == Select(since[..|s.fates|], s.fates)
    && queue == since[|s.fates|..] && |queue| <= 256
    && |s.got| + CountDropped(s.fates) + |queue| == |since|
  }

  lemma CutAtRegistration(s: Sub, queue: seq<Event>, earlier: seq<Event>, since: seq<Event>, now: real)
    requires HandedOver(s, queue, earlier + since) && s.start == |earlier| && s.cutoff == now - REPLAY_TTL_SEC
    ensures HandedOverSince(s, queue, earlier, since, now)
  {
    hide Select, Unexpired, Last, CountDropped;
    var hist, n := earlier + since, |s.fates|;
    assert hist[..s.start] == earlier;
    assert hist[s.start..s.start + n] == since[..n];
    assert hist[s.start + n..] == since[n..];
  }

  ghost predicate NeverCloses(steps: seq<Step>, q: QueueId) {
    forall i | 0 <= i < |steps| :: !(steps[i].Close? && steps[i].q == q)
  }

  /** What a subscription was registered with stays with it until it is closed. */
  lemma {:induction false} RegistrationStays(w: World, q: QueueId, steps: seq<Step>)
    requires ValidRun(w, steps) && q in w.subs && NeverCloses(steps, q)
    ensures var w' := Run(w, steps);
            && q in w'.subs && w'.subs[q].channel == w.subs[q].channel
            && w'.subs[q].start == w.subs[q].start && w'.subs[q].cutoff == w.subs[q].cutoff
    decreases steps
  {
    if steps == [] {
    } else {
      var rest := steps[1..];
      assert forall i | 0 <= i < |rest| :: rest[i] == steps[i + 1];
      RegistrationStays(Apply(w, steps[0]), q, rest);
    }
  }

  /**
  The replay-to-live handoff, for every run cut at a registration: what the subscriber is shown
  first is what the channel published before it, the last 256 less the expired, and what follows
  is what the channel published after it, with nothing in both and nothing in neither.
  */
  lemma Handoff(before: seq<Step>, c: Channel, q: QueueId, now: real, after: seq<Step>)
    requires ValidRun(INIT, before) && Enabled(Run(INIT, before), Subscribe(c, q, now))
    requires ValidRun(Apply(Run(INIT, before), Subscribe(c, q, now)), after) && NeverCloses(after, q)
    ensures var w := Run(Apply(Run(INIT, before), Subscribe(c, q, now)), after);
            && q in w.subs && q in w.bus.queues && w.subs[q].channel == c
            && HandedOverSince(w.subs[q], w.bus.queues[q], PublishedOn(before, c), PublishedOn(after, c), now)
  {
    hide Unexpired, Last, Select, HandedOverSince;
    ReachableInv(before);
    var w0 := Run(INIT, before);
    var w1 := Apply(w0, Subscribe(c, q, now));
    StepKeepsInv(w0, Subscribe(c, q, now));
    StepHistory(w0, Subscribe(c, q, now), c);
    RegistrationStays(w1, q, after);
    RunKeepsInv(w1, after);
    HistoryIsWhatWasPublished(w1, after, c);
    var w := Run(w1, after);
    assert w1.Hist(c) == PublishedOn(before, c) + [] == PublishedOn(before, c);
    SubHandedOver(w.subs[q], w.bus.queues[q], w.Hist(c));
    CutAtRegistration(w.subs[q], w.bus.queues[q], PublishedOn(before, c), PublishedOn(after, c), now);
  }

  /** A channel key exists iff the channel has a subscriber. */
  lemma ChannelKeyIffSubscriber(steps: seq<Step>, c: Channel)
    requires ValidRun(INIT, steps)
    ensures var w := Run(INIT, steps);
            c in w.bus.channels <==> exists q :: q in w.subs && w.subs[q].channel == c
  {
    ReachableInv(steps);
    var w := Run(INIT, steps);
    if c in w.bus.channels {
      assert w.bus.channels[c] != {};
      var q :| q in w.bus.channels[c];
      assert q in w.bus.Subscribers(c);
      assert q in w.subs && w.subs[q].channel == c;
    } else {
      forall q <- w.subs ensures w.subs[q].channel != c {
        assert q !in w.bus.Subscribers(c);
      }
    }
  }

  // ---------------------------------------------------------------- dropping

  /**
  A publication reaches every subscriber of its channel and no other; it costs a subscriber its
  oldest queued event exactly when 256 are queued already.
  */
  lemma DropsIffFull(steps: seq<Step>, c: Channel, e: Event, now: real, q: QueueId)
    requires ValidRun(INIT, steps) && Enabled(Run(INIT, steps), Publish(c, e, now)) && q in Run(INIT, steps).subs
    ensures var w := Run(INIT, steps); var w' := Apply(w, Publish(c, e, now));
            && q in w.bus.queues && q in w'.bus.queues && q in w'.subs
            && var was, will := w.bus.queues[q], w'.bus.queues[q];
               if w.subs[q].channel != c then will == was && w'.subs[q].fates == w.subs[q].fates
               else if |was| == 256 then will == was[1..] + [e] && w'.subs[q].fates == w.subs[q].fates + [false]
               else |was| < 256 && will == was + [e] && w'.subs[q].fates == w.subs[q].fates
  {
    ReachableInv(steps);
    var w := Run(INIT, steps);
    assert SubOk(w.subs[q], w.bus.queues[q], w.Hist(w.subs[q].channel));
    assert q in w.bus.Subscribers(c) <==> w.subs[q].channel == c;
  }

  // ---------------------------------------------------------------- garbage collection

  /** Somebody listens to a channel. */
  ghost predicate Heard(w: World, c: Channel) {
    exists o :: o in w.subs && w.subs[o].channel == c
  }

  ghost predicate HasFresh(es: seq<Event>, cutoff: real) {
    exists i :: 0 <= i < |es| && es[i].ts >= cutoff
  }

  lemma HeardIff(w: World, c: Channel)
    requires Wiring(w)
    ensures c in w.bus.channels <==> Heard(w, c)
  {
    if c in w.bus.channels {
      assert w.bus.channels[c] != {};
      var o :| o in w.bus.channels[c];
      assert o in w.bus.Subscribers(c);
      assert o in w.subs && w.subs[o].channel == c;
    } else {
      forall o | o in w.subs ensures w.subs[o].channel != c {
        assert o !in w.bus.Subscribers(c);
      }
    }
  }

  lemma CleanedRing(b: Bus, c: Channel, q: QueueId, now: real, d: Channel)
    ensures var b' := b.Cleaned(c, q, now);
            && (c in b.replay ==> (c in b'.replay <==> c in b'.channels || HasFresh(b.replay[c], now - 120.0)))
            && (d != c ==> b'.Ring(d) == b.Ring(d) && b'.Subscribers(d) == b.Subscribers(d))
            && q !in b'.queues && q !in b'.Subscribers(c)
  {
    if c in b.replay {
      UnexpiredEmptyIff(b.replay[c], now - REPLAY_TTL_SEC);
    }
  }

  /**
  When a subscription closes, the ring of its channel is collected exactly when nobody else listens
  and every event in it is older than 120 seconds; nothing of any other channel is touched.
  */
  lemma RingCollectedIff(steps: seq<Step>, q: QueueId, now: real, d: Channel)
    requires ValidRun(INIT, steps) && Enabled(Run(INIT, steps), Close(q, now))
    ensures var w := Run(INIT, steps); var c := w.subs[q].channel; var w' := Apply(w, Close(q, now));
            && (c in w.bus.replay ==>
                  (c in w'.bus.replay <==> Heard(w', c) || HasFresh(w.bus.replay[c], now - 120.0)))
            && (d != c ==> w'.bus.Ring(d) == w.bus.Ring(d) && w'.bus.Subscribers(d) == w.bus.Subscribers(d))
            && q !in w'.bus.queues && q !in w'.bus.Subscribers(c)
  {
    hide Run, Unexpired, Heard, HasFresh;
    ReachableInv(steps);
    var w := Run(INIT, steps);
    StepKeepsWiring(w, Close(q, now));
    CleanedRing(w.bus, w.subs[q].channel, q, now, d);
    HeardIff(Apply(w, Close(q, now)), w.subs[q].channel);
  }

  // ---------------------------------------------------------------- no duplicates

  ghost predicate Distinct(es: seq<Event>) {
    forall i, j | 0 <= i < j < |es| :: es[i] != es[j]
  }

  lemma {:induction false} UnexpiredDistinct(es: seq<Event>, cutoff: real)
    requires Distinct(es)
    ensures Distinct(Unexpired(es, cutoff))
  {
    if es == [] {
    } else {
      assert Distinct(es[1..]) by {
        assert forall i | 0 <= i < |es| - 1 :: es[1..][i] == es[i + 1];
      }
      UnexpiredDistinct(es[1..], cutoff);
      assert es[0] !in es[1..];
    }
  }

  lemma {:induction false} SelectDistinct(es: seq<Event>, fates: seq<bool>)
    requires |es| == |fates| && Distinct(es)
    ensures Distinct(Select(es, fates)) && forall e <- Select(es, fates) :: e in es
  {
    if es == [] {
    } else {
      var n := |es| - 1;
      SelectDistinct(es[..n], fates[..n]);
      assert es[n] !in es[..n];
      DistinctConcat(Select(es[..n], fates[..n]), if fates[n] then [es[n]] else []);
    }
  }

  lemma DistinctConcat(a: seq<Event>, b: seq<Event>)
    requires Distinct(a) && Distinct(b) && forall e <- a :: e !in b
    ensures Distinct(a + b)
  {
    forall i, j | 0 <= i < j < |a + b| ensures (a + b)[i] != (a + b)[j] {
      if i < |a| <= j {
        assert a[i] in a && b[j - |a|] in b;
      }
    }
  }

  /** Selections from two stretches of a history without repetitions have no event in common. */
  lemma SnapshotAndLiveDistinct(hist: seq<Event>, m: nat, n: nat, cutoff: real, fates: seq<bool>)
    requires Distinct(hist) && m <= n <= |hist| && |fates| == n - m
    ensures Distinct(Unexpired(Last(hist[..m], REPLAY_MAXLEN), cutoff) + Select(hist[m..n], fates))
  {
    var before, live := Last(hist[..m], REPLAY_MAXLEN), hist[m..n];
    var k := m - |before|;
    assert before == hist[k..m];
    assert Distinct(before) && Distinct(live);
    UnexpiredDistinct(before, cutoff);
    SelectDistinct(live, fates);
    forall e | e in before ensures e !in live {
      var i :| 0 <= i < |before| && before[i] == e;
      assert e == hist[k + i];
    }
    DistinctConcat(Unexpired(before, cutoff), Select(live, fates));
  }

  lemma ShownPartDistinct(s: Sub)
    requires s.shown <= |s.snapshot| && (s.got != [] ==> s.shown == |s.snapshot|)
    requires Distinct(s.snapshot + s.got)
    ensures Distinct(s.Received())
  {
    var all := s.snapshot + s.got;
    assert |s.Received()| <= |all|;
    assert forall i | 0 <= i < |s.Received()| :: s.Received()[i] == all[i];
  }

  lemma SubReceivesOnce(s: Sub, queue: seq<Event>, hist: seq<Event>)
    requires SubOk(s, queue, hist) && Distinct(hist)
    ensures Distinct(s.Received())
  {
    hide Unexpired, Select, Last, Distinct;
    SnapshotAndLiveDistinct(hist, s.start, s.start + |s.fates|, s.cutoff, s.fates);
    ShownPartDistinct(s);
  }

  /** If no event is published twice, no subscriber ever receives one twice. */
  lemma NoEventTwice(steps: seq<Step>, q: QueueId)
    requires ValidRun(INIT, steps)
    requires q in Run(INIT, steps).subs
    requires Distinct(PublishedOn(steps, Run(INIT, steps).subs[q].channel))
    ensures var s := Run(INIT, steps).subs[q]; s.shown <= |s.snapshot| && Distinct(s.Received())
  {
    ReachableInv(steps);
    var w := Run(INIT, steps);
    assert SubOk(w.subs[q], w.bus.queues[q], w.Hist(w.subs[q].channel));
    SubReceivesOnce(w.subs[q], w.bus.queues[q], w.Hist(w.subs[q].channel));
  }
}
