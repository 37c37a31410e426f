/**
The main thread and the pending queue seen together: chat writes one row in each, a tick consumes
the queue, and deleting or rewinding messages must not leave the queue naming a message that is gone.
*/
module Inbox {
  import opened Prelude

  datatype Message = Message(id: nat, mission: nat, thread: string, created: int)

  datatype RowStatus = Pending | Consumed | Dropped

  /** A row of super_pending_messages; names is its meta ->> 'main_msg_id'. */
  datatype Row = Row(id: nat, mission: nat, names: Option<nat>, created: int, status: RowStatus)

  datatype State = State(messages: seq<Message>, rows: seq<Row>, clock: int, nextId: nat)

  const EMPTY := State([], [], 0, 0)

  /** What the caller's own meta, spread last into the row's meta, does to the main_msg_id key. */
  datatype Override = Absent | Null | Named(id: nat)

  predicate OnMain(m: Message, mission: nat) {
    m.mission == mission && m.thread == "main"
  }

  // ---------------------------------------------------------------- the statements

  function DeleteWhere(gone: Message -> bool, ms: seq<Message>): seq<Message> {
    if ms == [] then []
    else (if gone(ms[0]) then [] else [ms[0]]) + DeleteWhere(gone, ms[1..])
  }

  function SetWhere(hit: Row -> bool, status: RowStatus, rows: seq<Row>): seq<Row> {
    seq(|rows|, i requires 0 <= i < |rows| => if hit(rows[i]) then rows[i].(status := status) else rows[i])
  }

  function CountWhere(hit: Row -> bool, rows: seq<Row>): nat {
    if rows == [] then 0 else (if hit(rows[0]) then 1 else 0) + CountWhere(hit, rows[1..])
  }

  function IsPending(mission: nat): Row -> bool {
    (r: Row) => r.mission == mission && r.status == Pending
  }

  function NamesIt(mission: nat, id: nat): Row -> bool {
    (r: Row) => r.mission == mission && r.status == Pending && r.names == Some(id)
  }

  function LaterRow(mission: nat, at: int): Row -> bool {
    (r: Row) => r.mission == mission && r.status == Pending && r.created > at
  }

  function LaterMessage(mission: nat, at: int): Message -> bool {
    (m: Message) => OnMain(m, mission) && m.created > at
  }

  function HasId(id: nat): Message -> bool {
    (m: Message) => m.id == id
  }

  function Find(ms: seq<Message>, mission: nat, id: nat): (r: Option<Message>)
    ensures r.Some? ==> r.value in ms && r.value.id == id && OnMain(r.value, mission)
    ensures r.None? ==> forall m | m in ms :: !(m.id == id && OnMain(m, mission))
  {
    if ms == [] then None
    else if ms[0].id == id && OnMain(ms[0], mission) then Some(ms[0])
    else Find(ms[1..], mission, id)
  }

  // ---------------------------------------------------------------- the operations

  /** A message in a thread, stamped with the time of its transaction. */
  function Appended(s: State, mission: nat, thread: string): State {
    s.(messages := s.messages + [Message(s.nextId, mission, thread, s.clock)], nextId := s.nextId + 1)
  }

  function NameOf(main: nat, meta: Override): Option<nat> {
    match meta
    case Absent => Some(main)
    case Null => None
    case Named(id) => Some(id)
  }

  predicate Full(s: State, mission: nat, maxPending: nat) {
    CountWhere(IsPending(mission), s.rows) >= maxPending
  }

  function Enqueued(s: State, mission: nat, main: nat, meta: Override, maxPending: nat): State {
    if Full(s, mission, maxPending) then s
    else s.(rows := s.rows + [Row(s.nextId, mission, NameOf(main, meta), s.clock, Pending)], nextId := s.nextId + 1)
  }

  /** Appending and enqueueing are two transactions; later is what the clock gains between them. */
  function Chatted(s: State, mission: nat, meta: Override, maxPending: nat, later: nat): State {
    Enqueued(Ticked(Appended(s, mission, "main"), later), mission, s.nextId, meta, maxPending)
  }

  function Ticked(s: State, dt: nat): State {
    s.(clock := s.clock + dt)
  }

  function Popped(s: State, mission: nat): State {
    s.(rows := SetWhere(IsPending(mission), Consumed, s.rows))
  }

  /** A message that is not on the mission's main thread is refused with 404. */
  function Deleted(s: State, mission: nat, id: nat): State {
    if Find(s.messages, mission, id).None? then s
    else State(DeleteWhere(HasId(id), s.messages), SetWhere(NamesIt(mission, id), Dropped, s.rows), s.clock, s.nextId)
  }

  function Rewound(s: State, mission: nat, id: nat): State {
    match Find(s.messages, mission, id)
    case None => s
    case Some(target) => State(
      DeleteWhere(LaterMessage(mission, target.created), s.messages),
      SetWhere(LaterRow(mission, target.created), Dropped, s.rows), s.clock, s.nextId)
  }

  class Store {
    var messages: seq<Message>
    var rows: seq<Row>
    var clock: int
    var nextId: nat

    function Get(): State
      reads this
    {
      State(messages, rows, clock, nextId)
    }

    constructor ()
      ensures Get() == EMPTY
    {
      messages, rows, clock, nextId := [], [], 0, 0;
    }

    method Append(mission: nat, thread: string) returns (id: nat)
      modifies this
      ensures Get() == Appended(old(Get()), mission, thread) && id == old(nextId)
    {
      id := nextId;
      messages := messages + [Message(id, mission, thread, clock)];
      nextId := nextId + 1;
    }

    method CountRows(mission: nat) returns (n: nat)
      ensures n == CountWhere(IsPending(mission), rows)
    {
      n := 0;
      for i := |rows| downto 0
        invariant n == CountWhere(IsPending(mission), rows[i..])
      {
        if rows[i].mission == mission && rows[i].status == Pending {
          n := n + 1;
        }
      }
    }

    method Enqueue(mission: nat, main: nat, meta: Override, maxPending: nat) returns (ok: bool)
      modifies this
      ensures Get() == Enqueued(old(Get()), mission, main, meta, maxPending)
      ensures ok == !Full(old(Get()), mission, maxPending)
    {
      var waiting := CountRows(mission);
      if waiting >= maxPending {
        return false;
      }
      var names := Some(main);
      match meta {
        case Absent =>
        case Null => names := None;
        case Named(id) => names := Some(id);
      }
      rows := rows + [Row(nextId, mission, names, clock, Pending)];
      nextId := nextId + 1;
      return true;
    }

    /** The writing part of the chat endpoint. */
    method Chat(mission: nat, meta: Override, maxPending: nat, later: nat) returns (ok: bool)
      modifies this
      ensures Get() == Chatted(old(Get()), mission, meta, maxPending, later)
      ensures ok == !Full(old(Get()), mission, maxPending)
    {
      var main := Append(mission, "main");
      clock := clock + later;
      ok := Enqueue(mission, main, meta, maxPending);
    }

    method Pop(mission: nat) returns (popped: seq<Row>)
      modifies this`rows
      ensures Get() == Popped(old(Get()), mission)
      ensures forall r :: r in popped <==> r in old(rows) && r.mission == mission && r.status == Pending
    {
      popped := [];
      var after: seq<Row> := [];
      for i := 0 to |rows|
        invariant rows == old(rows)
        invariant after == SetWhere(IsPending(mission), Consumed, rows[..i])
        invariant forall r :: r in popped <==> r in rows[..i] && r.mission == mission && r.status == Pending
      {
        assert rows[..i + 1] == rows[..i] + [rows[i]];
        if rows[i].mission == mission && rows[i].status == Pending {
          popped := popped + [rows[i]];
          after := after + [rows[i].(status := Consumed)];
        } else {
          after := after + [rows[i]];
        }
      }
      assert rows[..|rows|] == rows;
      rows := after;
    }

    method DeleteMessage(mission: nat, id: nat) returns (found: bool, dropped: nat)
      modifies this`messages, this`rows
      ensures Get() == Deleted(old(Get()), mission, id)
      ensures found == Find(old(messages), mission, id).Some?
      ensures dropped == if found then CountWhere(NamesIt(mission, id), old(rows)) else 0
    {
      var msg := Find(messages, mission, id);
      if msg == None {
        return false, 0;
      }
      dropped := CountWhere(NamesIt(mission, id), rows);
      rows := SetWhere(NamesIt(mission, id), Dropped, rows);
      messages := DeleteWhere(HasId(id), messages);
      return true, dropped;
    }

    method Rewind(mission: nat, id: nat) returns (found: bool, deleted: nat, dropped: nat)
      modifies this`messages, this`rows
      ensures Get() == Rewound(old(Get()), mission, id)
      ensures found == Find(old(messages), mission, id).Some?
      ensures deleted == |old(messages)| - |messages|
      ensures dropped == if found
                         then CountWhere(LaterRow(mission, Find(old(messages), mission, id).value.created), old(rows))
                         else 0
    {
      var msg := Find(messages, mission, id);
      if msg == None {
        return false, 0, 0;
      }
      var ts := msg.value.created;
      DeleteWhereExact(LaterMessage(mission, ts), messages);
      var kept := DeleteWhere(LaterMessage(mission, ts), messages);
      deleted := |messages| - |kept|;
      messages := kept;
      dropped := CountWhere(LaterRow(mission, ts), rows);
      rows := SetWhere(LaterRow(mission, ts), Dropped, rows);
      return true, deleted, dropped;
    }
  }

  // ---------------------------------------------------------------- consistency

  ghost predicate Names(s: State, r: Row, m: Message) {
    m in s.messages && r.names == Some(m.id) && OnMain(m, r.mission) && m.created <= r.created
  }

  /** The row's message, if it names one, is on the main thread of its mission and no younger than the row. */
  ghost predicate Backed(s: State, r: Row) {
    r.names.Some? ==> exists m :: Names(s, r, m)
  }

  ghost predicate RowsBacked(s: State) {
    forall r | r in s.rows && r.status == Pending :: Backed(s, r)
  }

  ghost predicate DistinctIds(ms: seq<Message>) {
    forall i, j | 0 <= i < j < |ms| :: ms[i].id != ms[j].id
  }

  ghost predicate Stamped(s: State) {
    forall m | m in s.messages :: m.id < s.nextId && m.created <= s.clock
  }

  ghost predicate Consistent(s: State) {
    RowsBacked(s) && DistinctIds(s.messages) && Stamped(s)
  }

  /** The name a chat may give its row: none, its own message, or one that is on the main thread. */
  ghost predicate Harmless(s: State, mission: nat, meta: Override) {
    meta.Named? ==> meta.id == s.nextId || exists m :: m in s.messages && m.id == meta.id && OnMain(m, mission)
  }

  lemma {:induction false} DeleteWhereExact(gone: Message -> bool, ms: seq<Message>)
    ensures forall m :: m in DeleteWhere(gone, ms) <==> m in ms && !gone(m)
    ensures |DeleteWhere(gone, ms)| <= |ms|
  {
    if ms == [] {
    } else {
      DeleteWhereExact(gone, ms[1..]);
      assert ms == [ms[0]] + ms[1..];
    }
  }

  lemma {:induction false} DeleteWhereDistinct(gone: Message -> bool, ms: seq<Message>)
    requires DistinctIds(ms)
    ensures DistinctIds(DeleteWhere(gone, ms))
  {
    if ms == [] {
    } else {
      var rest := ms[1..];
      assert DistinctIds(rest) by {
        assert forall i | 0 <= i < |rest| :: rest[i] == ms[i + 1];
      }
      DeleteWhereDistinct(gone, rest);
      DeleteWhereExact(gone, rest);
      forall m | m in DeleteWhere(gone, rest) ensures m.id != ms[0].id {
        var k :| 0 <= k < |rest| && rest[k] == m;
        assert ms[k + 1] == m;
      }
    }
  }

  lemma SameMessage(ms: seq<Message>, m: Message, n: Message)
    requires DistinctIds(ms) && m in ms && n in ms && m.id == n.id
    ensures m == n
  {
    var i :| 0 <= i < |ms| && ms[i] == m;
    var j :| 0 <= j < |ms| && ms[j] == n;
  }

  lemma AppendedIsConsistent(s: State, mission: nat, thread: string)
    requires Consistent(s)
    ensures Consistent(Appended(s, mission, thread))
  {
    var t := Appended(s, mission, thread);
    forall r | r in t.rows && r.status == Pending && r.names.Some? ensures Backed(t, r) {
      var m :| Names(s, r, m);
      assert Names(t, r, m);
    }
  }

  lemma TickedIsConsistent(s: State, dt: nat)
    requires Consistent(s)
    ensures Consistent(Ticked(s, dt))
  {
    var t := Ticked(s, dt);
    forall r | r in t.rows && r.status == Pending && r.names.Some? ensures Backed(t, r) {
      var m :| Names(s, r, m);
      assert Names(t, r, m);
    }
  }

  /** The name is none, or that of a message on the main thread. */
  ghost predicate NamesMain(s: State, mission: nat, name: Option<nat>) {
    name.Some? ==> exists m :: m in s.messages && Some(m.id) == name && OnMain(m, mission)
  }

  /** Queueing keeps consistency exactly when the new row names nothing, or a message that is there. */
  lemma EnqueuedIsConsistentIff(s: State, mission: nat, main: nat, meta: Override, maxPending: nat)
    requires Consistent(s) && !Full(s, mission, maxPending)
    ensures Consistent(Enqueued(s, mission, main, meta, maxPending)) <==> NamesMain(s, mission, NameOf(main, meta))
  {
    var t := Enqueued(s, mission, main, meta, maxPending);
    var row := Row(s.nextId, mission, NameOf(main, meta), s.clock, Pending);
    forall r | r in s.rows && r.status == Pending && r.names.Some? ensures Backed(t, r) {
      var m :| Names(s, r, m);
      assert Names(t, r, m);
    }
    assert row in t.rows;
    if NamesMain(s, mission, row.names) && row.names.Some? {
      var m :| m in s.messages && Some(m.id) == row.names && OnMain(m, mission);
      assert Names(t, row, m);
    }
    if Consistent(t) && row.names.Some? {
      assert Backed(t, row);
      var m :| Names(t, row, m);
      assert m in s.messages;
    }
  }

  /**
  A chat that is queued keeps the inbox consistent exactly when the caller's own meta does not
  name a message that is not on the main thread.
  */
  lemma ChatKeepsConsistentIff(s: State, mission: nat, meta: Override, maxPending: nat, later: nat)
    requires Consistent(s)
    ensures Consistent(Chatted(s, mission, meta, maxPending, later))
            <==> Full(s, mission, maxPending) || Harmless(s, mission, meta)
  {
    hide Consistent;
    var t := Appended(s, mission, "main");
    var u := Ticked(t, later);
    AppendedIsConsistent(s, mission, "main");
    TickedIsConsistent(t, later);
    if !Full(s, mission, maxPending) {
      EnqueuedIsConsistentIff(u, mission, s.nextId, meta, maxPending);
      OwnMessage(s, mission, later);
      if meta.Named? {
        HarmlessIff(s, mission, meta, later);
      }
    }
  }

  lemma OwnMessage(s: State, mission: nat, later: nat)
    ensures NamesMain(Ticked(Appended(s, mission, "main"), later), mission, Some(s.nextId))
  {
    var m := Message(s.nextId, mission, "main", s.clock);
    assert m in Appended(s, mission, "main").messages && OnMain(m, mission);
  }

  lemma HarmlessIff(s: State, mission: nat, meta: Override, later: nat)
    requires meta.Named?
    ensures var t := Ticked(Appended(s, mission, "main"), later);
            NamesMain(t, mission, Some(meta.id)) <==> Harmless(s, mission, meta)
  {
    var t := Ticked(Appended(s, mission, "main"), later);
    OwnMessage(s, mission, later);
    if m :| m in s.messages && m.id == meta.id && OnMain(m, mission) {
      assert m in t.messages;
    }
    if m :| m in t.messages && m.id == meta.id && OnMain(m, mission) {
      assert m in s.messages || m.id == s.nextId;
    }
  }

  /** Rows change only in status, and only the ones hit. */
  lemma SetWhereOrigin(hit: Row -> bool, status: RowStatus, rows: seq<Row>, r: Row)
    requires r in SetWhere(hit, status, rows) && r.status == Pending && status != Pending
    ensures r in rows && !hit(r)
  {
    var after := SetWhere(hit, status, rows);
    var i :| 0 <= i < |after| && after[i] == r;
    assert rows[i] == r;
  }

  lemma PoppedIsConsistent(s: State, mission: nat)
    requires Consistent(s)
    ensures Consistent(Popped(s, mission))
  {
    var t := Popped(s, mission);
    forall r | r in t.rows && r.status == Pending ensures Backed(t, r) {
      SetWhereOrigin(IsPending(mission), Consumed, s.rows, r);
      if r.names.Some? {
        assert Backed(s, r);
        var m :| Names(s, r, m);
        assert Names(t, r, m);
      }
    }
  }

  /** A pending row that the deletion of id does not hit does not name the deleted message. */
  lemma NamesAnother(s: State, mission: nat, id: nat, r: Row, m: Message)
    requires DistinctIds(s.messages) && Find(s.messages, mission, id).Some?
    requires r.status == Pending && Names(s, r, m) && !NamesIt(mission, id)(r)
    ensures m.id != id
  {
    var target := Find(s.messages, mission, id).value;
    if m.id == id {
      SameMessage(s.messages, m, target);
    }
  }

  lemma DeletedIsConsistent(s: State, mission: nat, id: nat)
    requires Consistent(s)
    ensures Consistent(Deleted(s, mission, id))
  {
    var t := Deleted(s, mission, id);
    var found := Find(s.messages, mission, id);
    if found.Some? {
      DeleteWhereExact(HasId(id), s.messages);
      DeleteWhereDistinct(HasId(id), s.messages);
      forall r | r in t.rows && r.status == Pending && r.names.Some? ensures Backed(t, r) {
        SetWhereOrigin(NamesIt(mission, id), Dropped, s.rows, r);
        assert Backed(s, r);
        var m :| Names(s, r, m);
        NamesAnother(s, mission, id, r, m);
        assert Names(t, r, m);
      }
    }
  }

  lemma RewoundIsConsistent(s: State, mission: nat, id: nat)
    requires Consistent(s)
    ensures Consistent(Rewound(s, mission, id))
  {
    var t := Rewound(s, mission, id);
    var found := Find(s.messages, mission, id);
    if found.Some? {
      var at := found.value.created;
      DeleteWhereExact(LaterMessage(mission, at), s.messages);
      DeleteWhereDistinct(LaterMessage(mission, at), s.messages);
      forall r | r in t.rows && r.status == Pending && r.names.Some? ensures Backed(t, r) {
        SetWhereOrigin(LaterRow(mission, at), Dropped, s.rows, r);
        assert Backed(s, r);
        var m :| Names(s, r, m);
        assert Names(t, r, m);
      }
    }
  }

  // ---------------------------------------------------------------- histories

  datatype Event =
    | Chat(mission: nat, meta: Override, maxPending: nat, later: nat)
    | Post(mission: nat, thread: string)
    | Consume(mission: nat)
    | Delete(mission: nat, id: nat)
    | RewindTo(mission: nat, id: nat)
    | Wait(dt: nat)

  function Apply(s: State, e: Event): State {
    match e
    case Chat(mission, meta, maxPending, later) => Chatted(s, mission, meta, maxPending, later)
    case Post(mission, thread) => Appended(s, mission, thread)
    case Consume(mission) => Popped(s, mission)
    case Delete(mission, id) => Deleted(s, mission, id)
    case RewindTo(mission, id) => Rewound(s, mission, id)
    case Wait(dt) => Ticked(s, dt)
  }

  function ApplyAll(s: State, es: seq<Event>): State
    decreases es
  {
    if es == [] then s else ApplyAll(Apply(s, es[0]), es[1..])
  }

  ghost predicate HarmlessEvent(s: State, e: Event) {
    e.Chat? ==> Full(s, e.mission, e.maxPending) || Harmless(s, e.mission, e.meta)
  }

  /** No queued chat of the history names a message that is not there. */
  ghost predicate AllHarmless(s: State, es: seq<Event>)
    decreases es
  {
    es != [] ==> HarmlessEvent(s, es[0]) && AllHarmless(Apply(s, es[0]), es[1..])
  }

  lemma ApplyIsConsistent(s: State, e: Event)
    requires Consistent(s) && HarmlessEvent(s, e)
    ensures Consistent(Apply(s, e))
  {
    hide Consistent, Harmless, Full;
    match e
    case Chat(mission, meta, maxPending, later) => ChatKeepsConsistentIff(s, mission, meta, maxPending, later);
    case Post(mission, thread) => AppendedIsConsistent(s, mission, thread);
    case Consume(mission) => PoppedIsConsistent(s, mission);
    case Delete(mission, id) => DeletedIsConsistent(s, mission, id);
    case RewindTo(mission, id) => RewoundIsConsistent(s, mission, id);
    case Wait(dt) => TickedIsConsistent(s, dt);
  }

  /**
  Over every history of chats, posts, consumed ticks, deletions and rewinds, on any number of
  missions, every pending row that names a main message names one that is still there.
  */
  lemma {:induction false} HistoriesStayConsistent(s: State, es: seq<Event>)
    requires Consistent(s) && AllHarmless(s, es)
    ensures Consistent(ApplyAll(s, es))
    decreases es
  {
    if es == [] {
    } else {
      ApplyIsConsistent(s, es[0]);
      HistoriesStayConsistent(Apply(s, es[0]), es[1..]);
    }
  }

  /** From an empty inbox, every history of harmless chats stays consistent. */
  lemma EveryHistoryIsConsistent(es: seq<Event>)
    requires AllHarmless(EMPTY, es)
    ensures Consistent(ApplyAll(EMPTY, es))
  {
    HistoriesStayConsistent(EMPTY, es);
  }

  // ---------------------------------------------------------------- what a chat and a tick do

  lemma {:induction false} CountConcat(hit: Row -> bool, a: seq<Row>, b: seq<Row>)
    ensures CountWhere(hit, a + b) == CountWhere(hit, a) + CountWhere(hit, b)
  {
    if a == [] {
      assert a + b == b;
    } else {
      assert (a + b)[1..] == a[1..] + b;
      CountConcat(hit, a[1..], b);
    }
  }

  /** How many messages wait for a mission. */
  function Waiting(s: State, mission: nat): nat {
    CountWhere((r: Row) => r.mission == mission && r.status == Pending, s.rows)
  }

  /**
  A chat always leaves its message on the main thread, and one more waiting row exactly when fewer
  than the limit were waiting; so a queue within its limit stays within it.
  */
  lemma ChatFillsToTheLimit(s: State, mission: nat, meta: Override, maxPending: nat, later: nat)
    ensures var t := Chatted(s, mission, meta, maxPending, later);
            && t.messages == s.messages + [Message(s.nextId, mission, "main", s.clock)]
            && Waiting(t, mission) == Waiting(s, mission) + (if Waiting(s, mission) < maxPending then 1 else 0)
            && (Waiting(s, mission) <= maxPending ==> Waiting(t, mission) <= maxPending)
            && s.rows <= t.rows
            && (Waiting(s, mission) < maxPending ==> t.rows == s.rows + [Row(s.nextId + 1, mission,
                  match meta case Absent => Some(s.nextId) case Null => None case Named(id) => Some(id),
                  s.clock + later, Pending)])
  {
    SameCount(s.rows, mission);
    var t := Chatted(s, mission, meta, maxPending, later);
    if Waiting(s, mission) < maxPending {
      var row := t.rows[|s.rows|];
      CountConcat((r: Row) => r.mission == mission && r.status == Pending, s.rows, [row]);
      assert t.rows == s.rows + [row];
    }
  }

  lemma {:induction false} SameCount(rows: seq<Row>, mission: nat)
    ensures CountWhere(IsPending(mission), rows)
            == CountWhere((r: Row) => r.mission == mission && r.status == Pending, rows)
  {
    if rows == [] {
    } else {
      SameCount(rows[1..], mission);
    }
  }

  lemma {:induction false} NoneHitNoneCounted(hit: Row -> bool, rows: seq<Row>)
    requires forall i | 0 <= i < |rows| :: !hit(rows[i])
    ensures CountWhere(hit, rows) == 0
  {
    if rows == [] {
    } else {
      NoneHitNoneCounted(hit, rows[1..]);
    }
  }

  /** A message of any kind arrives in its thread, and in nothing else. */
  lemma MessageArrives(s: State, mission: nat, thread: string)
    ensures var t := Appended(s, mission, thread);
            && t.messages == s.messages + [Message(s.nextId, mission, thread, s.clock)]
            && t.rows == s.rows && t.clock == s.clock && t.nextId > s.nextId
  {
  }

  /** A tick consumes what waits for its mission, all of it and nothing else. */
  lemma PopConsumesExactly(s: State, mission: nat)
    ensures var t := Popped(s, mission);
            && t.messages == s.messages && |t.rows| == |s.rows| && Waiting(t, mission) == 0
            && forall i | 0 <= i < |s.rows| :: t.rows[i] ==
                 if s.rows[i].mission == mission && s.rows[i].status == Pending
                 then s.rows[i].(status := Consumed) else s.rows[i]
  {
    NoneHitNoneCounted((r: Row) => r.mission == mission && r.status == Pending, Popped(s, mission).rows);
  }

  // ---------------------------------------------------------------- what a rewind leaves

  /**
  A rewind leaves on the main thread exactly the messages at or before its target, the target
  among them, and every message elsewhere; of the rows it changes only the status of the pending
  ones of this mission that are younger than the target, so consumed rows and other missions stay.
  */
  lemma RewindLeavesExactly(s: State, mission: nat, id: nat, target: Message)
    requires Find(s.messages, mission, id) == Some(target)
    ensures var t := Rewound(s, mission, id);
            && target in t.messages
            && (forall m :: m in t.messages <==>
                  m in s.messages && (OnMain(m, mission) ==> m.created <= target.created))
            && |t.rows| == |s.rows|
            && (forall i | 0 <= i < |s.rows| :: t.rows[i] ==
                  if s.rows[i].mission == mission && s.rows[i].status == Pending && s.rows[i].created > target.created
                  then s.rows[i].(status := Dropped) else s.rows[i])
  {
    DeleteWhereExact(LaterMessage(mission, target.created), s.messages);
  }

  /**
  Rewinding to a message that is still queued keeps the message and, unless both carry the same
  time stamp, drops its row: no tick will read it.
  */
  lemma RewindUnqueuesItsTargetIff(s: State, mission: nat, id: nat, target: Message, i: nat)
    requires Consistent(s) && Find(s.messages, mission, id) == Some(target) && i < |s.rows|
    requires s.rows[i].mission == mission && s.rows[i].status == Pending && s.rows[i].names == Some(id)
    ensures Rewound(s, mission, id).rows[i].status == Dropped <==> s.rows[i].created != target.created
  {
    var r := s.rows[i];
    assert Backed(s, r);
    var m :| Names(s, r, m);
    SameMessage(s.messages, m, target);
  }

  /** A deletion removes that message alone and leaves no pending row of the mission naming it. */
  lemma DeleteLeavesExactly(s: State, mission: nat, id: nat)
    requires Consistent(s) && Find(s.messages, mission, id).Some?
    ensures var t := Deleted(s, mission, id);
            && (forall m :: m in t.messages <==> m in s.messages && m != Find(s.messages, mission, id).value)
            && (forall r | r in t.rows && r.mission == mission && r.status == Pending :: r.names != Some(id))
            && |t.rows| == |s.rows|
            && (forall i | 0 <= i < |s.rows| && s.rows[i].names != Some(id) :: t.rows[i] == s.rows[i])
  {
    var t := Deleted(s, mission, id);
    var target := Find(s.messages, mission, id).value;
    DeleteWhereExact(HasId(id), s.messages);
    forall m | m in s.messages && m.id == id ensures m == target {
      SameMessage(s.messages, m, target);
    }
    forall r | r in t.rows && r.mission == mission && r.status == Pending ensures r.names != Some(id) {
      SetWhereOrigin(NamesIt(mission, id), Dropped, s.rows, r);
    }
  }

  /**
  The two transactions of a chat are not one: a deletion of the new message that comes between
  them leaves the queue naming a message that is gone, from every consistent state.
  */
  lemma DeleteInsideAChatDangles(s: State, mission: nat, maxPending: nat)
    requires Consistent(s) && !Full(s, mission, maxPending)
    ensures var between := Deleted(Appended(s, mission, "main"), mission, s.nextId);
            !Consistent(Enqueued(between, mission, s.nextId, Absent, maxPending))
  {
    var t := Appended(s, mission, "main");
    AppendedIsConsistent(s, mission, "main");
    var m := Message(s.nextId, mission, "main", s.clock);
    assert m in t.messages && OnMain(m, mission);
    var between := Deleted(t, mission, s.nextId);
    DeletedIsConsistent(t, mission, s.nextId);
    DeleteLeavesExactly(t, mission, s.nextId);
    NothingNamedYet(s, mission);
    assert between.rows == s.rows;
    EnqueuedIsConsistentIff(between, mission, s.nextId, Absent, maxPending);
    forall n | n in between.messages ensures n.id != s.nextId {
      if n.id == s.nextId {
        SameMessage(t.messages, n, m);
      }
    }
  }

  /** No pending row names an id that has not been handed out. */
  lemma NothingNamedYet(s: State, mission: nat)
    requires Consistent(s)
    ensures SetWhere(NamesIt(mission, s.nextId), Dropped, s.rows) == s.rows
  {
    forall r | r in s.rows && r.status == Pending && r.names.Some? ensures r.names.value < s.nextId {
      assert Backed(s, r);
      var m :| Names(s, r, m);
    }
  }
}
