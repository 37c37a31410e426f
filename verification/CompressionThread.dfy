/**
Compressing one thread: select the old uncompressed messages, wait for their summary while new
messages arrive, then flag them, move the watermark and extend the agent's memory in one
transaction. Messages are identified by their position in the thread.
*/
module CompressionThread {
  import opened Prelude
  import opened Segments

  datatype Message = Message(ts: int, dialogue: bool, length: nat, compressed: bool)

  datatype Thread = Thread(msgs: seq<Message>, watermark: Option<int>, memories: map<string, Memory>)

  predicate Within(ids: seq<nat>, n: nat) {
    forall i | 0 <= i < |ids| :: ids[i] < n
  }

  /** The positions of the uncompressed messages, oldest first, whatever their role. */
  function Uncompressed(msgs: seq<Message>): (ids: seq<nat>)
    ensures Within(ids, |msgs|)
  {
    if msgs == [] then []
    else Uncompressed(msgs[..|msgs| - 1]) + (if msgs[|msgs| - 1].compressed then [] else [|msgs| - 1])
  }

  /** Only user and assistant messages weigh in the threshold. */
  function DialogueTokens(msgs: seq<Message>, ids: seq<nat>): nat
    requires Within(ids, |msgs|)
  {
    if ids == [] then 0
    else DialogueTokens(msgs, ids[..|ids| - 1])
         + (if msgs[ids[|ids| - 1]].dialogue then msgs[ids[|ids| - 1]].length else 0)
  }

  /** msgs[:-keep] with Python's reading of zero and negative counts. */
  function PickCompressible<T>(msgs: seq<T>, keep: int): seq<T> {
    if |msgs| <= keep then []
    else if keep > 0 then msgs[..|msgs| - keep]
    else msgs[..if -keep <= |msgs| then -keep else |msgs|]
  }

  /** The selection phase; None when there is nothing to do. */
  function Selected(t: Thread, threshold: int, keep: int): Option<seq<nat>> {
    var ids := Uncompressed(t.msgs);
    var picked := PickCompressible(ids, keep);
    if ids == [] || DialogueTokens(t.msgs, ids) < threshold || picked == [] then None else Some(picked)
  }

  function Flagged(msgs: seq<Message>, picked: seq<nat>): seq<Message> {
    seq(|msgs|, i requires 0 <= i < |msgs| => if i in picked then msgs[i].(compressed := true) else msgs[i])
  }

  function MemoryOf(t: Thread, agent: string): Memory {
    if agent in t.memories then t.memories[agent] else Absent
  }

  /** The commit phase. */
  function Committed(t: Thread, agent: string, picked: seq<nat>, first: string, last: string, summary: string): Thread
    requires picked != [] && Within(picked, |t.msgs|)
  {
    Thread(Flagged(t.msgs, picked), Some(t.msgs[picked[|picked| - 1]].ts),
           t.memories[agent := Written(MemoryOf(t, agent), Compressed(first, last, |picked|, summary))])
  }

  class ThreadStore {
    var msgs: seq<Message>
    var watermark: Option<int>
    var memories: map<string, Memory>

    function GetThread(): Thread
      reads this
    {
      Thread(msgs, watermark, memories)
    }

    constructor ()
      ensures GetThread() == Thread([], None, map[])
    {
      msgs, watermark, memories := [], None, map[];
    }

    method EstimateDialogueTokens(ids: seq<nat>) returns (total: nat)
      requires Within(ids, |msgs|)
      ensures total == DialogueTokens(msgs, ids)
    {
      total := 0;
      for i := 0 to |ids|
        invariant total == DialogueTokens(msgs, ids[..i])
      {
        assert ids[..i + 1][..i] == ids[..i];
        if msgs[ids[i]].dialogue {
          total := total + msgs[ids[i]].length;
        }
      }
      assert ids[..|ids|] == ids;
    }

    /** maybe_compress_context up to the summary. */
    method Select(threshold: int, keep: int) returns (picked: Option<seq<nat>>)
      ensures picked == Selected(GetThread(), threshold, keep)
    {
      var ids := Uncompressed(msgs);
      if ids == [] {
        return None;
      }
      var total := EstimateDialogueTokens(ids);
      if total < threshold {
        return None;
      }
      var compressible := PickCompressible(ids, keep);
      if compressible == [] {
        return None;
      }
      return Some(compressible);
    }

    /** maybe_compress_context after the summary: one transaction. */
    method Commit(agent: string, picked: seq<nat>, first: string, last: string, summary: string)
      requires picked != [] && Within(picked, |msgs|)
      modifies this
      ensures GetThread() == Committed(old(GetThread()), agent, picked, first, last, summary)
    {
      hide Wrap, Join;
      var row := new MemoryRow();
      row.memory := if agent in memories then memories[agent] else Absent;
      row.Compress(first, last, |picked|, summary);
      memories := memories[agent := row.memory];
      var newest := msgs[picked[|picked| - 1]].ts;
      msgs := Flagged(msgs, picked);
      watermark := Some(newest);
    }
  }

  // ---------------------------------------------------------------- sums over agents

  function TotalOf(m: Memory): nat {
    match m
    case Absent => 0
    case Present(_, total) => total
  }

  /** The sum of the agents' compressed counts. */
  ghost function SumTotals(ms: map<string, Memory>): nat
    decreases |ms|
  {
    if ms == map[] then 0
    else
      var a :| a in ms;
      TotalOf(ms[a]) + SumTotals(ms - {a})
  }

  lemma {:induction false} SumSplits(ms: map<string, Memory>, a: string)
    requires a in ms
    ensures SumTotals(ms) == TotalOf(ms[a]) + SumTotals(ms - {a})
    decreases |ms|
  {
    var b :| b in ms && SumTotals(ms) == TotalOf(ms[b]) + SumTotals(ms - {b});
    if a != b {
      SumSplits(ms - {b}, a);
      SumSplits(ms - {a}, b);
      assert ms - {a} - {b} == ms - {b} - {a};
    }
  }

  lemma SumUpdated(ms: map<string, Memory>, a: string, m: Memory)
    ensures SumTotals(ms[a := m]) + (if a in ms then TotalOf(ms[a]) else 0) == SumTotals(ms) + TotalOf(m)
  {
    SumSplits(ms[a := m], a);
    assert ms[a := m] - {a} == ms - {a};
    if a in ms {
      SumSplits(ms, a);
    } else {
      assert ms - {a} == ms;
    }
  }

  // ---------------------------------------------------------------- the partition

  ghost predicate Chronological(msgs: seq<Message>) {
    forall i, j | 0 <= i < j < |msgs| :: msgs[i].ts < msgs[j].ts
  }

  /** The first k messages, and only they, are flagged. */
  ghost predicate PrefixFlagged(msgs: seq<Message>, k: nat) {
    k <= |msgs| && forall i | 0 <= i < |msgs| :: msgs[i].compressed <==> i < k
  }

  /** Flags, watermark and counts agree on one cut of the thread. */
  ghost predicate Partition(t: Thread, k: nat) {
    && Chronological(t.msgs)
    && PrefixFlagged(t.msgs, k)
    && t.watermark == (if k == 0 then None else Some(t.msgs[k - 1].ts))
    && SumTotals(t.memories) == k
  }

  ghost predicate Partitioned(t: Thread) {
    exists k :: Partition(t, k)
  }

  /** The flagged messages are exactly those at or before the watermark. */
  lemma FlaggedIffAtOrBeforeWatermark(t: Thread, k: nat)
    requires Partition(t, k)
    ensures forall i | 0 <= i < |t.msgs| ::
              t.msgs[i].compressed <==> t.watermark.Some? && t.msgs[i].ts <= t.watermark.value
  {
    if k > 0 {
      forall i | 0 <= i < |t.msgs| ensures i < k <==> t.msgs[i].ts <= t.msgs[k - 1].ts {
      }
    }
  }

  function Range(from: nat, n: nat): seq<nat> {
    seq(n, i requires 0 <= i < n => from + i)
  }

  lemma {:induction false} UncompressedOfPrefix(msgs: seq<Message>, k: nat)
    requires PrefixFlagged(msgs, k)
    ensures Uncompressed(msgs) == Range(k, |msgs| - k)
  {
    if msgs == [] {
    } else {
      var n := |msgs| - 1;
      if k <= n {
        UncompressedOfPrefix(msgs[..n], k);
      } else {
        UncompressedOfPrefix(msgs[..n], n);
      }
    }
  }

  lemma PickFromRange(k: nat, n: nat, keep: int)
    requires PickCompressible(Range(k, n), keep) != []
    ensures var picked := PickCompressible(Range(k, n), keep);
            && picked == Range(k, |picked|) && |picked| <= n && (keep > 0 ==> |picked| == n - keep)
            && (keep < 0 ==> |picked| == if -keep <= n then -keep else n)
  {
  }

  /** A selection is the next stretch of the thread, and leaves the newest keep messages alone. */
  lemma SelectionIsNextStretch(t: Thread, k: nat, threshold: int, keep: int)
    requires PrefixFlagged(t.msgs, k) && Selected(t, threshold, keep).Some?
    ensures var picked := Selected(t, threshold, keep).value;
            && 0 < |picked| && k + |picked| <= |t.msgs|
            && picked == Range(k, |picked|)
            && (keep > 0 ==> k + |picked| == |t.msgs| - keep)
            && (keep < 0 ==> |picked| == if -keep <= |t.msgs| - k then -keep else |t.msgs| - k)
  {
    hide PickCompressible, Range, DialogueTokens;
    UncompressedOfPrefix(t.msgs, k);
    PickFromRange(k, |t.msgs| - k, keep);
  }

  // ---------------------------------------------------------------- when something is selected

  /** How many messages are not compressed yet. */
  function Fresh(msgs: seq<Message>): nat {
    if msgs == [] then 0 else Fresh(msgs[..|msgs| - 1]) + if msgs[|msgs| - 1].compressed then 0 else 1
  }

  /** The characters of the user and assistant messages among them. */
  function Weight(msgs: seq<Message>): nat {
    if msgs == [] then 0
    else
      var m := msgs[|msgs| - 1];
      Weight(msgs[..|msgs| - 1]) + if !m.compressed && m.dialogue then m.length else 0
  }

  lemma {:induction false} UncompressedCounts(msgs: seq<Message>)
    ensures |Uncompressed(msgs)| == Fresh(msgs)
  {
    if msgs == [] {
    } else {
      UncompressedCounts(msgs[..|msgs| - 1]);
    }
  }

  lemma {:induction false} TokensOfFront(msgs: seq<Message>, m: Message, ids: seq<nat>)
    requires Within(ids, |msgs|)
    ensures DialogueTokens(msgs + [m], ids) == DialogueTokens(msgs, ids)
  {
    if ids == [] {
    } else {
      TokensOfFront(msgs, m, ids[..|ids| - 1]);
      assert (msgs + [m])[ids[|ids| - 1]] == msgs[ids[|ids| - 1]];
    }
  }

  lemma {:induction false} TokensAreWeight(msgs: seq<Message>)
    ensures DialogueTokens(msgs, Uncompressed(msgs)) == Weight(msgs)
  {
    if msgs == [] {
    } else {
      var n := |msgs| - 1;
      var front, ids := msgs[..n], Uncompressed(msgs[..n]);
      TokensAreWeight(front);
      assert msgs == front + [msgs[n]];
      TokensOfFront(front, msgs[n], ids);
      if msgs[n].compressed {
        assert Uncompressed(msgs) == ids;
      } else {
        var all := ids + [n];
        assert Uncompressed(msgs) == all;
        assert all[..|all| - 1] == ids && all[|all| - 1] == n;
      }
    }
  }

  /**
  Exactly when there is something to compress: more uncompressed messages than are to be kept, a
  number to keep that is not zero, and a dialogue at least as heavy as the threshold.
  */
  lemma SelectsIff(t: Thread, threshold: int, keep: int)
    ensures Selected(t, threshold, keep).Some? <==>
              Fresh(t.msgs) > 0 && Fresh(t.msgs) > keep && keep != 0 && threshold <= Weight(t.msgs)
  {
    UncompressedCounts(t.msgs);
    TokensAreWeight(t.msgs);
  }

  ghost predicate TurnsAt(t: Thread, keep: int, limit: nat) {
    forall threshold :: Selected(t, threshold, keep).Some? <==> threshold <= limit
  }

  /**
  With something to pick there is one threshold up to which a compression is selected. A further
  uncompressed message raises it by its length if it is dialogue and by nothing otherwise, and it
  is zero while no uncompressed message is dialogue.
  */
  lemma ThresholdIsWeight(t: Thread, keep: int, m: Message)
    requires Fresh(t.msgs) > 0 && Fresh(t.msgs) > keep && keep != 0
    ensures exists limit: nat :: TurnsAt(t, keep, limit)
    ensures forall limit: nat | TurnsAt(t, keep, limit) && !m.compressed ::
              TurnsAt(t.(msgs := t.msgs + [m]), keep, limit + if m.dialogue then m.length else 0)
    ensures (forall i | 0 <= i < |t.msgs| :: t.msgs[i].compressed || !t.msgs[i].dialogue) ==> TurnsAt(t, keep, 0)
  {
    var t' := t.(msgs := t.msgs + [m]);
    assert t'.msgs[..|t.msgs|] == t.msgs;
    WeightTurns(t, keep);
    if !m.compressed {
      WeightTurns(t', keep);
    }
    forall limit: nat | TurnsAt(t, keep, limit) ensures limit == Weight(t.msgs) {
      TurnsOnce(t, keep, limit, Weight(t.msgs));
    }
    if forall i | 0 <= i < |t.msgs| :: t.msgs[i].compressed || !t.msgs[i].dialogue {
      NoDialogueWeighsNothing(t.msgs);
    }
  }

  lemma WeightTurns(t: Thread, keep: int)
    requires Fresh(t.msgs) > 0 && Fresh(t.msgs) > keep && keep != 0
    ensures TurnsAt(t, keep, Weight(t.msgs))
  {
    forall threshold ensures Selected(t, threshold, keep).Some? <==> threshold <= Weight(t.msgs) {
      SelectsIff(t, threshold, keep);
    }
  }

  lemma TurnsOnce(t: Thread, keep: int, a: nat, b: nat)
    requires TurnsAt(t, keep, a) && TurnsAt(t, keep, b)
    ensures a == b
  {
    assert Selected(t, a, keep).Some? && Selected(t, b, keep).Some?;
  }

  lemma {:induction false} NoDialogueWeighsNothing(msgs: seq<Message>)
    requires forall i | 0 <= i < |msgs| :: msgs[i].compressed || !msgs[i].dialogue
    ensures Weight(msgs) == 0
  {
    if msgs == [] {
    } else {
      NoDialogueWeighsNothing(msgs[..|msgs| - 1]);
    }
  }

  /**
  Only the threshold looks at roles; the selection does not. Exactly when a selection consists of
  user and assistant messages: when everything between the flagged prefix and the kept tail does.
  */
  lemma SelectsOnlyDialogueIff(t: Thread, k: nat, threshold: int, keep: int)
    requires PrefixFlagged(t.msgs, k) && Selected(t, threshold, keep).Some? && keep > 0
    ensures var picked := Selected(t, threshold, keep).value;
            && Within(picked, |t.msgs|)
            && ((forall i | 0 <= i < |picked| :: t.msgs[picked[i]].dialogue)
                <==> forall i | k <= i < |t.msgs| - keep :: t.msgs[i].dialogue)
  {
    hide PickCompressible, DialogueTokens, Selected;
    SelectionIsNextStretch(t, k, threshold, keep);
    var picked := Selected(t, threshold, keep).value;
    assert forall i | 0 <= i < |picked| :: picked[i] == k + i;
    if forall i | 0 <= i < |picked| :: t.msgs[picked[i]].dialogue {
      forall i | k <= i < |t.msgs| - keep ensures t.msgs[i].dialogue {
        assert picked[i - k] == i;
      }
    }
  }

  /** A thread in which a message that is neither is selected, to be summarised and flagged. */
  lemma AToolMessageIsSelected()
    ensures var t := Thread([Message(1, false, 0, false), Message(2, true, 9, false)], None, map[]);
            Selected(t, 9, 1) == Some([0]) && !t.msgs[0].dialogue
  {
    var msgs := [Message(1, false, 0, false), Message(2, true, 9, false)];
    UncompressedOfPrefix(msgs, 0);
    var ids := Uncompressed(msgs);
    assert ids == [0, 1];
    assert ids[..1] == [0] && ids[..1][..0] == [];
    assert DialogueTokens(msgs, ids[..1]) == 0;
    assert DialogueTokens(msgs, ids) == 9;
  }

  lemma FlagRange(msgs: seq<Message>, k: nat, base: nat, n: nat)
    requires PrefixFlagged(msgs, k) && Chronological(msgs) && base <= k && base + n <= |msgs|
    ensures var k' := if k <= base + n then base + n else k;
            PrefixFlagged(Flagged(msgs, Range(base, n)), k') && Chronological(Flagged(msgs, Range(base, n)))
  {
    var picked := Range(base, n);
    forall i | 0 <= i < |msgs| ensures i in picked <==> base <= i < base + n {
      if base <= i < base + n {
        assert picked[i - base] == i;
      }
    }
  }

  lemma CommitFacts(t: Thread, k: nat, base: nat, n: nat, agent: string, first: string, last: string, summary: string)
    requires Partition(t, k) && 0 < n && base <= k && base + n <= |t.msgs|
    ensures var t' := Committed(t, agent, Range(base, n), first, last, summary);
            && PrefixFlagged(t'.msgs, if k <= base + n then base + n else k)
            && Chronological(t'.msgs)
            && t'.watermark == Some(t'.msgs[base + n - 1].ts)
            && t'.watermark == Some(t.msgs[base + n - 1].ts)
            && SumTotals(t'.memories) == k + n
  {
    hide Wrap, Join;
    var picked := Range(base, n);
    var t' := Committed(t, agent, picked, first, last, summary);
    FlagRange(t.msgs, k, base, n);
    assert picked[|picked| - 1] == base + n - 1;
    SumUpdated(t.memories, agent, t'.memories[agent]);
  }

  /**
  Committing a selection made when base messages were flagged, now that k are: the flags still form
  a prefix, but flags, watermark and counts agree exactly when nothing was committed in between.
  Otherwise messages are counted twice, and the watermark goes back when the other commit went
  further.
  */
  lemma CommitKeepsPartitionIff(
      t: Thread, k: nat, base: nat, n: nat, agent: string, first: string, last: string, summary: string)
    requires Partition(t, k) && 0 < n && base <= k && base + n <= |t.msgs|
    ensures var t' := Committed(t, agent, Range(base, n), first, last, summary);
            && (Partitioned(t') <==> base == k)
            && (base == k ==> Partition(t', k + n))
            && SumTotals(t'.memories) == k + n
            && (t.watermark.Some? && t'.watermark.value < t.watermark.value <==> base + n < k)
  {
    hide Committed, SumTotals, Chronological;
    var t' := Committed(t, agent, Range(base, n), first, last, summary);
    CommitFacts(t, k, base, n, agent, first, last, summary);
    WatermarkGoesBackIff(t, k, base + n);
    var cut := if k <= base + n then base + n else k;
    if base == k {
      assert Partition(t', k + n);
    }
    if k' :| Partition(t', k') {
      SameCut(t'.msgs, k', cut);
    }
  }

  /**
  What a commit does to the memories: the agent's gains the messages of the commit and one segment,
  every other agent's stays as it was.
  */
  lemma CommitWritesOneMemory(
      t: Thread, agent: string, picked: seq<nat>, first: string, last: string, summary: string, other: string)
    requires picked != [] && Within(picked, |t.msgs|) && IsStamp(first) && IsStamp(last)
    ensures var t' := Committed(t, agent, picked, first, last, summary);
            && TotalOf(MemoryOf(t', agent)) == TotalOf(MemoryOf(t, agent)) + |picked|
            && NextNumber(MemoryOf(t', agent)) == NextNumber(MemoryOf(t, agent)) + 1 + Count(summary)
            && (other != agent ==> MemoryOf(t', other) == MemoryOf(t, other))
  {
    hide Wrap, Join;
    WriteAdvances(MemoryOf(t, agent), Compressed(first, last, |picked|, summary));
  }

  lemma WatermarkGoesBackIff(t: Thread, k: nat, to: nat)
    requires Partition(t, k) && 0 < to <= |t.msgs|
    ensures t.watermark.Some? && t.msgs[to - 1].ts < t.watermark.value <==> to < k
  {
    if k > 0 {
      assert to < k ==> t.msgs[to - 1].ts < t.msgs[k - 1].ts;
      assert k < to ==> t.msgs[k - 1].ts < t.msgs[to - 1].ts;
    }
  }

  lemma SameCut(msgs: seq<Message>, k: nat, k': nat)
    requires PrefixFlagged(msgs, k) && PrefixFlagged(msgs, k')
    ensures k == k'
  {
    assert k < |msgs| ==> (msgs[k].compressed <==> k < k');
    assert k' < |msgs| ==> (msgs[k'].compressed <==> k' < k);
  }

  // ---------------------------------------------------------------- messages taken out

  /** The thread without message i; the memories and the watermark are not touched. */
  function Deleted(t: Thread, i: nat): Thread
    requires i < |t.msgs|
  {
    t.(msgs := t.msgs[..i] + t.msgs[i + 1..])
  }

  /** The thread cut back to its first n messages. */
  function CutBack(t: Thread, n: nat): Thread
    requires n <= |t.msgs|
  {
    t.(msgs := t.msgs[..n])
  }

  ghost predicate FlaggedAtWatermark(t: Thread) {
    forall i | 0 <= i < |t.msgs| ::
      t.msgs[i].compressed <==> t.watermark.Some? && t.msgs[i].ts <= t.watermark.value
  }

  /**
  Deleting a message keeps the flagged ones a prefix and exactly those at or before the watermark,
  but the agents' counts still agree with their number exactly when the message was not flagged.
  */
  lemma DeletionKeepsPartitionIff(t: Thread, k: nat, i: nat)
    requires Partition(t, k) && i < |t.msgs|
    ensures var t' := Deleted(t, i);
            && PrefixFlagged(t'.msgs, if i < k then k - 1 else k) && FlaggedAtWatermark(t')
            && (Partitioned(t') <==> i >= k)
  {
    hide SumTotals;
    var t' := Deleted(t, i);
    var cut := if i < k then k - 1 else k;
    FlaggedIffAtOrBeforeWatermark(t, k);
    assert forall j | 0 <= j < |t'.msgs| :: t'.msgs[j] == t.msgs[if j < i then j else j + 1];
    assert PrefixFlagged(t'.msgs, cut);
    if i >= k {
      assert Partition(t', k);
    }
    if k' :| Partition(t', k') {
      SameCut(t'.msgs, k', cut);
    }
  }

  /** Rewinding does the same: the counts still agree exactly when no flagged message was cut off. */
  lemma CutBackKeepsPartitionIff(t: Thread, k: nat, n: nat)
    requires Partition(t, k) && n <= |t.msgs|
    ensures var t' := CutBack(t, n);
            && PrefixFlagged(t'.msgs, if n < k then n else k) && FlaggedAtWatermark(t')
            && (Partitioned(t') <==> n >= k)
  {
    hide SumTotals;
    var t' := CutBack(t, n);
    var cut := if n < k then n else k;
    FlaggedIffAtOrBeforeWatermark(t, k);
    assert PrefixFlagged(t'.msgs, cut);
    if n >= k {
      assert Partition(t', k);
    }
    if k' :| Partition(t', k') {
      SameCut(t'.msgs, k', cut);
    }
  }

  // ---------------------------------------------------------------- whole runs

  /** A compression between its selection and its commit. */
  datatype Job = Job(agent: string, picked: seq<nat>)

  datatype System = System(thread: Thread, job: Option<Job>)

  const INIT := System(Thread([], None, map[]), None)

  datatype Step =
    | Append(msg: Message)
    | Begin(agent: string, threshold: int, keep: int)
    | Finish(first: string, last: string, summary: string)
    | Abandon                                       // rollback, or an escaped exception

  predicate JobFits(s: System) {
    s.job.Some? ==> s.job.value.picked != [] && Within(s.job.value.picked, |s.thread.msgs|)
  }

  /** One compression at a time; new messages are newer than every old one. */
  predicate Enabled(s: System, step: Step) {
    match step
    case Append(m) => !m.compressed && forall i | 0 <= i < |s.thread.msgs| :: s.thread.msgs[i].ts < m.ts
    case Begin(_, threshold, keep) => s.job == None && Selected(s.thread, threshold, keep).Some?
    case Finish(_, _, _) => s.job.Some? && JobFits(s)
    case Abandon => s.job.Some?
  }

  function Apply(s: System, step: Step): System
    requires Enabled(s, step)
  {
    match step
    case Append(m) => s.(thread := s.thread.(msgs := s.thread.msgs + [m]))
    case Begin(agent, threshold, keep) => s.(job := Some(Job(agent, Selected(s.thread, threshold, keep).value)))
    case Finish(first, last, summary) =>
      System(Committed(s.thread, s.job.value.agent, s.job.value.picked, first, last, summary), None)
    case Abandon => s.(job := None)
  }

  predicate ValidRun(s: System, steps: seq<Step>)
    decreases steps
  {
    steps == [] || (Enabled(s, steps[0]) && ValidRun(Apply(s, steps[0]), steps[1..]))
  }

  function Run(s: System, steps: seq<Step>): System
    requires ValidRun(s, steps)
    decreases steps
  {
    if steps == [] then s else Run(Apply(s, steps[0]), steps[1..])
  }

  ghost predicate Inv(s: System, k: nat) {
    && Partition(s.thread, k)
    && (s.job.Some? ==>
          var picked := s.job.value.picked;
          0 < |picked| && k + |picked| <= |s.thread.msgs| && picked == Range(k, |picked|))
  }

  lemma AppendKeepsCut(t: Thread, k: nat, m: Message)
    requires Partition(t, k) && !m.compressed && forall i | 0 <= i < |t.msgs| :: t.msgs[i].ts < m.ts
    ensures Partition(t.(msgs := t.msgs + [m]), k)
  {
    hide SumTotals;
  }

  /** One step moves the cut forward or leaves it, and never out of order. */
  lemma StepMovesCutForward(s: System, k: nat, step: Step) returns (k': nat)
    requires Inv(s, k) && Enabled(s, step)
    ensures k <= k' && Inv(Apply(s, step), k')
  {
    hide Committed, Selected, SumTotals, Chronological, PrefixFlagged;
    k' := k;
    match step
    case Append(m) => AppendKeepsCut(s.thread, k, m);
    case Begin(_, threshold, keep) => SelectionIsNextStretch(s.thread, k, threshold, keep);
    case Finish(first, last, summary) =>
      var n := |s.job.value.picked|;
      k' := k + n;
      CommitKeepsPartitionIff(s.thread, k, k, n, s.job.value.agent, first, last, summary);
    case Abandon =>
  }

  lemma {:induction false} RunMovesCutForward(s: System, k: nat, steps: seq<Step>) returns (k': nat)
    requires Inv(s, k) && ValidRun(s, steps)
    ensures k <= k' && Inv(Run(s, steps), k')
    decreases steps
  {
    if steps == [] {
      k' := k;
    } else {
      var k1 := StepMovesCutForward(s, k, steps[0]);
      k' := RunMovesCutForward(Apply(s, steps[0]), k1, steps[1..]);
    }
  }

  /**
  Over every run with appends between selection and commit: the flagged messages form a prefix of
  the thread, they are exactly those at or before the watermark, and the agents' counts add up to
  their number.
  */
  lemma EveryRunIsPartitioned(steps: seq<Step>)
    requires ValidRun(INIT, steps)
    ensures var t := Run(INIT, steps).thread;
            && Partitioned(t)
            && forall i | 0 <= i < |t.msgs| ::
                 t.msgs[i].compressed <==> t.watermark.Some? && t.msgs[i].ts <= t.watermark.value
  {
    hide Wrap, Join;
    var k := RunMovesCutForward(INIT, 0, steps);
    var t := Run(INIT, steps).thread;
    assert Partition(t, k);
    FlaggedIffAtOrBeforeWatermark(t, k);
  }

  /** The watermark never decreases. */
  lemma WatermarkNeverDecreases(s: System, k: nat, steps: seq<Step>)
    requires Inv(s, k) && ValidRun(s, steps) && s.thread.watermark.Some?
    ensures var s' := Run(s, steps);
            s'.thread.watermark.Some? && s'.thread.watermark.value >= s.thread.watermark.value
  {
    var k' := RunMovesCutForward(s, k, steps);
    TimestampsStay(s, steps);
    var t' := Run(s, steps).thread;
    assert t'.msgs[k - 1].ts == s.thread.msgs[k - 1].ts;
  }

  lemma {:induction false} TimestampsStay(s: System, steps: seq<Step>)
    requires ValidRun(s, steps)
    ensures var s' := Run(s, steps);
            && |s.thread.msgs| <= |s'.thread.msgs|
            && forall i | 0 <= i < |s.thread.msgs| :: s'.thread.msgs[i].ts == s.thread.msgs[i].ts
    decreases steps
  {
    hide Wrap, Join;
    if steps == [] {
    } else {
      TimestampsStay(Apply(s, steps[0]), steps[1..]);
    }
  }
}
