/**
The in-process event bus: channels of subscriber queues, a replay ring per channel, and garbage
collection of both. Each operation below is one stretch of code between two awaits: publishing
never suspends after it takes the lock, and a subscription registers and snapshots at the first
read of its generator, in one locked section.
*/
module EventBus {
  import opened Prelude

  type Channel = nat     // a mission id
  type QueueId = nat     // the identity of a subscriber's queue

  datatype Event = Event(id: nat, ts: real)

  const MAX_QUEUE: nat := 256
  const REPLAY_MAXLEN: nat := 256
  const REPLAY_TTL_SEC: real := 120.0

  /** Appending to a bounded buffer that drops its oldest entry when full. */
  function Push(q: seq<Event>, e: Event, limit: nat): seq<Event>
    requires limit > 0
  {
    (if |q| >= limit then q[1..] else q) + [e]
  }

  function Unexpired(es: seq<Event>, cutoff: real): (r: seq<Event>)
    ensures forall e <- r :: e in es && e.ts >= cutoff
  {
    if es == [] then []
    else (if es[0].ts >= cutoff then [es[0]] else []) + Unexpired(es[1..], cutoff)
  }

  function Last(es: seq<Event>, n: nat): seq<Event> {
    if |es| <= n then es else es[|es| - n..]
  }

  /** The three dictionaries of the bus. */
  datatype Bus = Bus(
    channels: map<Channel, set<QueueId>>,
    replay: map<Channel, seq<Event>>,
    queues: map<QueueId, seq<Event>>)
  {
    function Subscribers(c: Channel): set<QueueId> {
      if c in channels then channels[c] else {}
    }

    function Ring(c: Channel): seq<Event> {
      if c in replay then replay[c] else []
    }

    predicate Wired() {
      forall c <- channels :: channels[c] <= queues.Keys
    }

    function Published(c: Channel, e: Event): Bus {
      Bus(channels,
          replay[c := Push(Ring(c), e, REPLAY_MAXLEN)],
          map q <- queues :: if q in Subscribers(c) then Push(queues[q], e, MAX_QUEUE) else queues[q])
    }

    function Registered(c: Channel, q: QueueId): Bus {
      Bus(channels[c := Subscribers(c) + {q}], replay, queues[q := []])
    }

    function Snapshot(c: Channel, now: real): seq<Event> {
      Unexpired(Ring(c), now - REPLAY_TTL_SEC)
    }

    function Received(q: QueueId): Bus
      requires q in queues && queues[q] != []
    {
      this.(queues := queues[q := queues[q][1..]])
    }

    function Cleaned(c: Channel, q: QueueId, now: real): Bus {
      var left := Subscribers(c) - {q};
      var channels' := if Subscribers(c) == {} then channels
                       else if left == {} then channels - {c} else channels[c := left];
      var replay' := if c in replay && c !in channels' && Unexpired(replay[c], now - REPLAY_TTL_SEC) == []
                     then replay - {c} else replay;
      Bus(channels', replay', queues - {q})
    }
  }

  class InProcessBus {
    var channels: map<Channel, set<QueueId>>
    var replay: map<Channel, seq<Event>>
    var queues: map<QueueId, seq<Event>>

    function GetBus(): Bus
      reads this
    {
      Bus(channels, replay, queues)
    }

    ghost predicate Valid()
      reads this
    {
      GetBus().Wired() && forall q <- queues :: |queues[q]| <= MAX_QUEUE
    }

    constructor ()
      ensures Valid() && GetBus() == Bus(map[], map[], map[])
    {
      channels, replay, queues := map[], map[], map[];
    }

    /** Ring first, subscribers or not; then one bounded put into each subscriber's queue. */
    method Publish(c: Channel, e: Event)
      requires Valid()
      modifies this
      ensures Valid() && GetBus() == old(GetBus()).Published(c, e)
    {
      var buf := if c in replay then replay[c] else [];
      if |buf| >= REPLAY_MAXLEN {
        buf := buf[1..];
      }
      replay := replay[c := buf + [e]];
      if c in channels && channels[c] != {} {
        FanOut(channels[c], e);
      }
      assert queues == old(GetBus()).Published(c, e).queues;
    }

    /** The delivery loop of publish. */
    method FanOut(subs: set<QueueId>, e: Event)
      requires Valid() && subs <= queues.Keys
      modifies this`queues
      ensures Valid() && queues.Keys == old(queues).Keys
      ensures forall q <- queues ::
                queues[q] == if q in subs then Push(old(queues)[q], e, MAX_QUEUE) else old(queues)[q]
    {
      var todo := subs;
      while todo != {}
        invariant todo <= subs && queues.Keys == old(queues).Keys
        invariant forall q <- queues ::
                    queues[q] == if q in subs - todo then Push(old(queues)[q], e, MAX_QUEUE) else old(queues)[q]
        decreases |todo|
      {
        var q :| q in todo;
        if |queues[q]| >= MAX_QUEUE {
          queues := queues[q := queues[q][1..]];
        }
        assert |queues[q]| < MAX_QUEUE; // put_nowait never finds a full queue
        queues := queues[q := queues[q] + [e]];
        todo := todo - {q};
      }
    }

    /** The locked section of subscribe: the queue first, then the snapshot of the ring. */
    method Register(c: Channel, q: QueueId, now: real) returns (snapshot: seq<Event>)
      requires Valid() && q !in queues
      modifies this
      ensures Valid() && GetBus() == old(GetBus()).Registered(c, q)
      ensures snapshot == old(GetBus()).Snapshot(c, now)
    {
      queues := queues[q := []];
      channels := channels[c := (if c in channels then channels[c] else {}) + {q}];
      var cutoff := now - REPLAY_TTL_SEC;
      snapshot := Unexpired(if c in replay then replay[c] else [], cutoff);
    }

    /** q.get(): the oldest queued event; None when the generator would wait. */
    method Get(q: QueueId) returns (r: Option<Event>)
      requires Valid() && q in queues
      modifies this
      ensures Valid()
      ensures r == if old(queues)[q] == [] then None else Some(old(queues)[q][0])
      ensures GetBus() == if r == None then old(GetBus()) else old(GetBus()).Received(q)
    {
      if queues[q] == [] {
        return None;
      }
      r := Some(queues[q][0]);
      queues := queues[q := queues[q][1..]];
    }

    /** The finally block of subscribe. */
    method Cleanup(c: Channel, q: QueueId, now: real)
      requires Valid() && forall d <- channels :: q in channels[d] ==> d == c
      modifies this
      ensures Valid() && GetBus() == old(GetBus()).Cleaned(c, q, now)
    {
      if c in channels && channels[c] != {} {
        var left := channels[c] - {q};
        if left == {} {
          channels := channels - {c};
        } else {
          channels := channels[c := left];
        }
      }
      if c in replay && c !in channels {
        var cutoff := now - REPLAY_TTL_SEC;
        if Unexpired(replay[c], cutoff) == [] {
          replay := replay - {c};
        }
      }
      queues := queues - {q};
    }
  }
}
