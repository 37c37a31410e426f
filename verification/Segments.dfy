/**
The text of a compressed memory: self-contained segments appended one after another, each headed
by a number that is computed by counting the headings already in the text.
*/
module Segments {
  import opened Prelude
  import opened Text

  const MARK: string := "## 压缩段 #"

  const COMPRESS_NOTE: string := "<!-- 该段为独立摘要，覆盖上述时间窗口的对话，不引用其他段落 -->"
  const UPSERT_NOTE: string := "<!-- 该段为独立摘要，不引用其他段落 -->"

  /** text.count("## 压缩段 #"): leftmost, non-overlapping occurrences. */
  function Count(t: string): nat {
    if |t| < |MARK| then 0
    else if t[..|MARK|] == MARK then 1 + Count(t[|MARK|..])
    else Count(t[1..])
  }

  /** A formatted timestamp: no hash, no line break. */
  predicate IsStamp(s: string) {
    '#' !in s && '\n' !in s
  }

  /** What one write adds; body is the summary as it is handed over, before strip(). */
  datatype Segment =
    | Compressed(first: string, last: string, count: nat, summary: string)
    | Upserted(stamp: string, count: nat, summary: string)
  {
    predicate Stamped() {
      match this
      case Compressed(first, last, _, _) => IsStamp(first) && IsStamp(last)
      case Upserted(stamp, _, _) => IsStamp(stamp)
    }
  }

  /** A memory row: absent, or its text and its running message count. */
  datatype Memory = Absent | Present(md: string, total: nat)

  /** A heading after its marker. */
  function HeadingTail(no: nat, seg: Segment, total: nat): string {
    Decimal(no) +
    match seg
    case Compressed(first, last, n, _) => "（" + first + " ~ " + last + "，" + Decimal(n) + " 条消息）"
    case Upserted(stamp, n, _) => "（~" + stamp + "，本次 +" + Decimal(n) + " 条，累计 " + Decimal(total) + " 条）"
  }

  function Heading(no: nat, seg: Segment, total: nat): string {
    MARK + HeadingTail(no, seg, total)
  }

  function EndLine(no: nat): string {
    "<!-- end 压缩段 " + "#" + (Decimal(no) + " -->")
  }

  function Note(seg: Segment): string {
    if seg.Compressed? then COMPRESS_NOTE else UPSERT_NOTE
  }

  /** A segment as it stands in the text: heading, note, body, end line. */
  function Wrap(no: nat, seg: Segment, total: nat): string {
    Heading(no, seg, total) + "\n" + (Note(seg) + "\n" + ("" + "\n" +
      (Strip(seg.summary) + "\n" + ("" + "\n" + EndLine(no)))))
  }

  /** Joining a segment to the text before it. */
  function Join(md: string, wrapped: string): string {
    md + "\n" + ("" + "\n" + ("---" + "\n" + wrapped))
  }

  /** The row after one write. A first upsert stores its text raw. */
  function Written(m: Memory, seg: Segment): Memory {
    match m
    case Absent =>
      if seg.Compressed? then Present(Wrap(1, seg, seg.count), seg.count) else Present(seg.summary, seg.count)
    case Present(md, total) =>
      Present(Join(md, Wrap(Count(md) + 1, seg, total + seg.count)), total + seg.count)
  }

  function WrittenAll(m: Memory, log: seq<Segment>): Memory {
    if log == [] then m else Written(WrittenAll(m, log[..|log| - 1]), log[|log| - 1])
  }

  class MemoryRow {
    var memory: Memory

    constructor ()
      ensures memory == Absent
    {
      memory := Absent;
    }

    /** The memory half of the compression commit. */
    method Compress(first: string, last: string, count: nat, summary: string)
      modifies this
      ensures memory == Written(old(memory), Compressed(first, last, count, summary))
    {
      hide Wrap, Join;
      var seg := Compressed(first, last, count, summary);
      match memory
      case Present(md, total) =>
        var prevCount := Count(md);
        var seqNo := prevCount + 1;
        var newTotal := total + count;
        memory := Present(Join(md, Wrap(seqNo, seg, newTotal)), newTotal);
      case Absent =>
        memory := Present(Wrap(1, seg, count), count);
    }

    /** upsert_thread_memory and upsert_project_memory. */
    method Upsert(stamp: string, count: nat, summary: string)
      modifies this
      ensures memory == Written(old(memory), Upserted(stamp, count, summary))
    {
      hide Wrap, Join;
      match memory
      case Present(md, total) =>
        var seqNo := Count(md) + 1;
        var newTotal := total + count;
        memory := Present(Join(md, Wrap(seqNo, Upserted(stamp, count, summary), newTotal)), newTotal);
      case Absent =>
        memory := Present(summary, count);
    }
  }

  // ---------------------------------------------------------------- counting

  lemma CutAcross(a: string, b: string, k: nat)
    requires k <= |a|
    ensures (a + "\n" + b)[..k] == a[..k] && (a + "\n" + b)[k..] == a[k..] + "\n" + b
  {
  }

  /** The marker has no line break, so counting is additive across one. */
  lemma {:induction false} CountAcrossLines(a: string, b: string)
    ensures Count(a + "\n" + b) == Count(a) + Count(b)
    decreases |a|
  {
    var t := a + "\n" + b;
    assert t[|a|] == '\n';
    if a == "" {
      assert t[0] == '\n' && t[1..] == b;
      if |t| >= |MARK| {
        assert t[..|MARK|][0] == '\n' && MARK[0] == '#';
      }
    } else {
      CutAcross(a, b, 1);
      CountAcrossLines(a[1..], b);
      if |a| >= |MARK| {
        CutAcross(a, b, |MARK|);
        CountAcrossLines(a[|MARK|..], b);
      } else if |t| >= |MARK| {
        assert t[..|MARK|][|a|] == '\n' && MARK[|a|] != '\n';
      }
    }
  }

  predicate NoHash(t: string) {
    forall i | 0 <= i < |t| :: t[i] != '#'
  }

  lemma {:induction false} NoHashNoMark(t: string)
    requires NoHash(t)
    ensures Count(t) == 0
  {
    if |t| >= |MARK| {
      assert t[..|MARK|][0] == t[0];
      NoHashNoMark(t[1..]);
    }
  }

  /** A single hash does not make a marker, which begins with two. */
  lemma {:induction false} OneHashNoMark(a: string, b: string)
    requires NoHash(a) && NoHash(b)
    ensures Count(a + "#" + b) == 0
  {
    var t := a + "#" + b;
    if |t| >= |MARK| {
      assert t[..|MARK|][0] == t[0] && t[..|MARK|][1] == t[1];
      assert MARK[0] == '#' && MARK[1] == '#';
      if a == "" {
        assert t[1..] == b;
        NoHashNoMark(b);
      } else {
        assert t[1..] == a[1..] + "#" + b;
        OneHashNoMark(a[1..], b);
      }
    }
  }

  lemma HeadingTailHasNoHash(no: nat, seg: Segment, total: nat)
    requires seg.Stamped()
    ensures NoHash(HeadingTail(no, seg, total))
  {
    match seg
    case Compressed(first, last, n, _) =>
      assert NoHash("（" + first + " ~ " + last + "，" + Decimal(n) + " 条消息）");
    case Upserted(stamp, n, _) =>
      assert NoHash("（~" + stamp + "，本次 +");
      assert NoHash(Decimal(n) + " 条，累计 " + Decimal(total) + " 条）");
  }

  lemma MarkThenTailCountsOnce(tail: string)
    requires NoHash(tail)
    ensures Count(MARK + tail) == 1
  {
    assert (MARK + tail)[..|MARK|] == MARK && (MARK + tail)[|MARK|..] == tail;
    NoHashNoMark(tail);
  }

  lemma HeadingCountsOnce(no: nat, seg: Segment, total: nat)
    requires seg.Stamped()
    ensures Count(Heading(no, seg, total)) == 1
  {
    HeadingTailHasNoHash(no, seg, total);
    MarkThenTailCountsOnce(HeadingTail(no, seg, total));
  }

  lemma EndLineHasNoMark(no: nat)
    ensures Count(EndLine(no)) == 0
  {
    assert NoHash("<!-- end 压缩段 ");
    assert NoHash(Decimal(no) + " -->");
    OneHashNoMark("<!-- end 压缩段 ", Decimal(no) + " -->");
  }

  lemma FixedLinesHaveNoMark(seg: Segment)
    ensures Count(Note(seg)) == 0 && Count("---") == 0 && Count("") == 0
  {
    assert NoHash(COMPRESS_NOTE) && NoHash(UPSERT_NOTE);
    NoHashNoMark(Note(seg));
  }

  lemma WrapCounts(no: nat, seg: Segment, total: nat)
    requires seg.Stamped()
    ensures Count(Wrap(no, seg, total)) == 1 + Count(Strip(seg.summary))
  {
    FixedLinesHaveNoMark(seg);
    EndLineHasNoMark(no);
    HeadingCountsOnce(no, seg, total);
    var e := EndLine(no);
    var body := Strip(seg.summary);
    CountAcrossLines("", e);
    CountAcrossLines(body, "" + "\n" + e);
    CountAcrossLines("", body + "\n" + ("" + "\n" + e));
    CountAcrossLines(Note(seg), "" + "\n" + (body + "\n" + ("" + "\n" + e)));
    CountAcrossLines(Heading(no, seg, total), Note(seg) + "\n" + ("" + "\n" + (body + "\n" + ("" + "\n" + e))));
  }

  lemma JoinCounts(md: string, wrapped: string)
    ensures Count(Join(md, wrapped)) == Count(md) + Count(wrapped)
  {
    FixedLinesHaveNoMark(Upserted("", 0, ""));
    CountAcrossLines("---", wrapped);
    CountAcrossLines("", "---" + "\n" + wrapped);
    CountAcrossLines(md, "" + "\n" + ("---" + "\n" + wrapped));
  }

  /** strip() removes no marker and makes none. */
  lemma StripKeepsCount(s: string)
    ensures Count(Strip(s)) == Count(s)
  {
    StripLeftKeepsCount(s);
    StripRightKeepsCount(StripLeft(s));
  }

  lemma {:induction false} StripLeftKeepsCount(s: string)
    ensures Count(StripLeft(s)) == Count(s)
  {
    if s != "" && IsSpace(s[0]) {
      StripLeftKeepsCount(s[1..]);
      assert |s| >= |MARK| ==> s[..|MARK|][0] == s[0];
    }
  }

  lemma {:induction false} DropLastSpace(s: string)
    requires s != "" && s[|s| - 1] != '#'
    ensures Count(s[..|s| - 1]) == Count(s)
  {
    var t := s[..|s| - 1];
    if |s| > |MARK| {
      assert s[..|MARK|] == t[..|MARK|];
      assert s[|MARK|..][..|s| - |MARK| - 1] == t[|MARK|..];
      assert s[1..][..|s| - 2] == t[1..];
      DropLastSpace(s[|MARK|..]);
      DropLastSpace(s[1..]);
    } else if |s| == |MARK| {
      assert s[..|MARK|] == s && MARK[|MARK| - 1] == '#';
    }
  }

  lemma {:induction false} StripRightKeepsCount(s: string)
    ensures Count(StripRight(s)) == Count(s)
  {
    if s != "" && IsSpace(s[|s| - 1]) {
      DropLastSpace(s);
      StripRightKeepsCount(s[..|s| - 1]);
    }
  }

  // ---------------------------------------------------------------- numbering

  /** The log as the documentation describes it: headings numbered by position. */
  function Rendered(log: seq<Segment>): Memory {
    if log == [] then Absent
    else
      var seg, k := log[|log| - 1], |log|;
      match Rendered(log[..k - 1])
      case Absent => Present(Wrap(k, seg, seg.count), seg.count)
      case Present(md, total) => Present(Join(md, Wrap(k, seg, total + seg.count)), total + seg.count)
  }

  function TotalMarks(log: seq<Segment>): nat {
    if log == [] then 0 else TotalMarks(log[..|log| - 1]) + Count(log[|log| - 1].summary)
  }

  function TotalMessages(log: seq<Segment>): nat {
    if log == [] then 0 else TotalMessages(log[..|log| - 1]) + log[|log| - 1].count
  }

  ghost predicate CompressionLog(log: seq<Segment>) {
    (forall seg <- log :: seg.Stamped()) && (log != [] ==> log[0].Compressed?)
  }

  /** The number the next segment would get. */
  function NextNumber(m: Memory): nat {
    match m
    case Absent => 1
    case Present(md, _) => Count(md) + 1
  }

  /** One write advances the next number by one, and by the markers its summary smuggles in. */
  lemma WriteAdvances(m: Memory, seg: Segment)
    requires seg.Stamped() && (m.Absent? ==> seg.Compressed?)
    ensures NextNumber(Written(m, seg)) == NextNumber(m) + 1 + Count(seg.summary)
  {
    hide Wrap, Join, Strip;
    StripKeepsCount(seg.summary);
    match m
    case Absent => WrapCounts(1, seg, seg.count);
    case Present(md, total) =>
      WrapCounts(Count(md) + 1, seg, total + seg.count);
      JoinCounts(md, Wrap(Count(md) + 1, seg, total + seg.count));
  }

  /**
  For every memory that began with a compression: the next heading is numbered one more than the
  number of segments plus the markers inside summaries, and the stored total is the sum of the
  segment sizes.
  */
  lemma {:induction false} NumberingIsExact(log: seq<Segment>)
    requires CompressionLog(log)
    ensures NextNumber(WrittenAll(Absent, log)) == |log| + 1 + TotalMarks(log)
    ensures log != [] ==> WrittenAll(Absent, log).Present? && WrittenAll(Absent, log).total == TotalMessages(log)
  {
    if log == [] {
    } else {
      var n := |log| - 1;
      assert CompressionLog(log[..n]);
      assert log[n] in log;
      NumberingIsExact(log[..n]);
      assert n > 0 ==> log[..n][0] == log[0];
      WriteAdvances(WrittenAll(Absent, log[..n]), log[n]);
    }
  }

  lemma WriteAt(m: Memory, seg: Segment, no: nat)
    requires m.Present? && NextNumber(m) == no
    ensures Written(m, seg) == Present(Join(m.md, Wrap(no, seg, m.total + seg.count)), m.total + seg.count)
  {
  }

  /**
  With summaries free of the marker, the text computed by counting is the text numbered by
  position: headings 1..k in order.
  */
  lemma {:induction false} CountedTextIsNumberedText(log: seq<Segment>)
    requires CompressionLog(log) && TotalMarks(log) == 0
    ensures WrittenAll(Absent, log) == Rendered(log)
  {
    hide Wrap, Join;
    if log == [] {
    } else {
      var n := |log| - 1;
      assert CompressionLog(log[..n]);
      CountedTextIsNumberedText(log[..n]);
      NumberingIsExact(log[..n]);
      assert WrittenAll(Absent, log) == Written(WrittenAll(Absent, log[..n]), log[n]);
      if n > 0 {
        WriteAt(WrittenAll(Absent, log[..n]), log[n], n + 1);
      }
    }
  }

  /** The part of a text after its last hash is determined by the text. */
  lemma AfterLastHash(x: string, a: string, y: string, b: string)
    requires x + "#" + a == y + "#" + b && NoHash(a) && NoHash(b)
    ensures a == b
  {
    var t := x + "#" + a;
    assert t[|x|] == '#' && t[|y|] == '#';
    assert forall i | |x| < i < |t| :: t[i] == a[i - |x| - 1];
    assert forall i | |y| < i < |t| :: t[i] == b[i - |y| - 1];
    assert |x| == |y|;
    assert t[|x| + 1..] == a && t[|y| + 1..] == b;
  }

  lemma Prepend(a: string, s: string, p: string, e: string)
    requires s == p + e
    ensures a + s == (a + p) + e
  {
  }

  /** A segment ends in its end line. */
  lemma EndsInEndLine(no: nat, seg: Segment, total: nat) returns (p: string)
    ensures Wrap(no, seg, total) == p + EndLine(no)
  {
    hide Heading, Note, Strip, EndLine;
    var e, body := EndLine(no), Strip(seg.summary);
    p := "" + "\n";
    var s := p + e;
    Prepend(body + "\n", s, p, e);
    s, p := body + "\n" + s, body + "\n" + p;
    Prepend("" + "\n", s, p, e);
    s, p := "" + "\n" + s, "" + "\n" + p;
    Prepend(Note(seg) + "\n", s, p, e);
    s, p := Note(seg) + "\n" + s, Note(seg) + "\n" + p;
    Prepend(Heading(no, seg, total) + "\n", s, p, e);
    p := Heading(no, seg, total) + "\n" + p;
  }

  /** Whatever stands before it, a segment ends in its own number. */
  lemma EndsInNumber(md: string, no: nat, seg: Segment, total: nat) returns (x: string)
    ensures md + Wrap(no, seg, total) == x + "#" + (Decimal(no) + " -->")
  {
    hide Wrap, Decimal;
    var p := EndsInEndLine(no, seg, total);
    var open, number := "<!-- end 压缩段 ", Decimal(no) + " -->";
    assert EndLine(no) == (open + "#") + number;
    Prepend(md, Wrap(no, seg, total), p, EndLine(no));
    Prepend(md + p, EndLine(no), open + "#", number);
    x := md + p + open;
    assert x + "#" == md + p + (open + "#");
  }

  lemma SameNumber(md: string, no: nat, total: nat, md': string, no': nat, total': nat, seg: Segment)
    requires md + Wrap(no, seg, total) == md' + Wrap(no', seg, total')
    ensures no == no'
  {
    hide Wrap;
    var x := EndsInNumber(md, no, seg, total);
    var y := EndsInNumber(md', no', seg, total');
    var a, b := Decimal(no) + " -->", Decimal(no') + " -->";
    AfterLastHash(x, a, y, b);
    assert a[..|a| - 4] == Decimal(no) && b[..|b| - 4] == Decimal(no');
    DecimalInjective(no, no');
  }

  function Separator(): string {
    "\n" + ("" + "\n" + ("---" + "\n"))
  }

  lemma JoinIsAppend(md: string, wrapped: string)
    ensures Join(md, wrapped) == (md + Separator()) + wrapped
  {
  }

  lemma RenderedAt(log: seq<Segment>)
    requires |log| > 1
    ensures var n := |log| - 1; var before := Rendered(log[..n]);
            && before.Present?
            && Rendered(log) == Present(Join(before.md, Wrap(n + 1, log[n], before.total + log[n].count)),
                                        before.total + log[n].count)
  {
    hide Wrap, Join;
    assert log[..|log| - 1] != [];
  }

  /**
  The text is the one numbered by position exactly when no summary before the last contains the
  marker; the last one can only mislead the next write.
  */
  lemma NumberedByPositionIff(log: seq<Segment>)
    requires CompressionLog(log) && log != []
    ensures WrittenAll(Absent, log) == Rendered(log) <==> TotalMarks(log[..|log| - 1]) == 0
  {
    hide Wrap, Join, Rendered, TotalMarks, WrittenAll, Separator;
    var n := |log| - 1;
    var front := log[..n];
    assert CompressionLog(front) by {
      assert n > 0 ==> front[0] == log[0];
    }
    NumberingIsExact(front);
    LastWrite(log);
    if n == 0 {
      OneSegment(log);
    } else {
      RenderedAt(log);
      var seg, w, r := log[n], WrittenAll(Absent, front), Rendered(front);
      var no := NextNumber(w);
      WriteAt(w, seg, no);
      if TotalMarks(front) == 0 {
        CountedTextIsNumberedText(front);
      } else if WrittenAll(Absent, log) == Rendered(log) {
        JoinIsAppend(w.md, Wrap(no, seg, w.total + seg.count));
        JoinIsAppend(r.md, Wrap(n + 1, seg, r.total + seg.count));
        SameNumber(w.md + Separator(), no, w.total + seg.count, r.md + Separator(), n + 1, r.total + seg.count, seg);
      }
    }
  }

  lemma LastWrite(log: seq<Segment>)
    requires log != []
    ensures WrittenAll(Absent, log) == Written(WrittenAll(Absent, log[..|log| - 1]), log[|log| - 1])
  {
  }

  lemma OneSegment(log: seq<Segment>)
    requires |log| == 1 && log[0].Compressed?
    ensures WrittenAll(Absent, log) == Rendered(log) && TotalMarks(log[..0]) == 0
  {
    hide Wrap, Join;
    assert log[..0] == [];
  }

  // ---------------------------------------------------------------- the text, part by part

  /** Lines of a text, with a line break between them. */
  function Lines(ls: seq<string>): string {
    if ls == [] then "" else if |ls| == 1 then ls[0] else ls[0] + "\n" + Lines(ls[1..])
  }

  /** The first line of a numbered part, written out. */
  function FirstLine(no: nat, seg: Segment, total: nat): string {
    "## 压缩段 #" + (Decimal(no) +
    match seg
    case Compressed(first, last, n, _) => "（" + first + " ~ " + last + "，" + Decimal(n) + " 条消息）"
    case Upserted(stamp, n, _) => "（~" + stamp + "，本次 +" + Decimal(n) + " 条，累计 " + Decimal(total) + " 条）")
  }

  function SecondLine(seg: Segment): string {
    match seg
    case Compressed(_, _, _, _) => "<!-- 该段为独立摘要，覆盖上述时间窗口的对话，不引用其他段落 -->"
    case Upserted(_, _, _) => "<!-- 该段为独立摘要，不引用其他段落 -->"
  }

  function LastLine(no: nat): string {
    "<!-- end 压缩段 #" + (Decimal(no) + " -->")
  }

  /** A numbered part: six lines, the fourth being the stripped summary (which may have several). */
  function PartText(no: nat, seg: Segment, total: nat): string {
    Lines([FirstLine(no, seg, total), SecondLine(seg), "", Strip(seg.summary), "", LastLine(no)])
  }

  lemma LinesCons(a: string, rest: seq<string>)
    requires rest != []
    ensures Lines([a] + rest) == a + "\n" + Lines(rest)
  {
    assert ([a] + rest)[1..] == rest;
  }

  lemma SixLines(a: string, b: string, c: string, d: string, e: string, f: string)
    ensures Lines([a, b, c, d, e, f]) == a + "\n" + (b + "\n" + (c + "\n" + (d + "\n" + (e + "\n" + f))))
  {
    hide Lines;
    LinesCons(a, [b, c, d, e, f]);
    LinesCons(b, [c, d, e, f]);
    LinesCons(c, [d, e, f]);
    LinesCons(d, [e, f]);
    LinesCons(e, [f]);
    assert [a] + [b, c, d, e, f] == [a, b, c, d, e, f];
    assert [b] + [c, d, e, f] == [b, c, d, e, f];
    assert [c] + [d, e, f] == [c, d, e, f];
    assert [d] + [e, f] == [d, e, f];
    assert [e] + [f] == [e, f];
    OneLine(f);
  }

  lemma OneLine(f: string)
    ensures Lines([f]) == f
  {
  }

  lemma HeadingIsFirstLine(no: nat, seg: Segment, total: nat)
    ensures Heading(no, seg, total) == FirstLine(no, seg, total)
  {
    hide Decimal;
  }

  lemma EndLineIsLastLine(no: nat)
    ensures EndLine(no) == LastLine(no) && Note(Upserted("", 0, "")) == "<!-- 该段为独立摘要，不引用其他段落 -->"
  {
    hide Decimal;
    assert "<!-- end 压缩段 " + "#" == "<!-- end 压缩段 #";
  }

  lemma WrapIsPart(no: nat, seg: Segment, total: nat)
    ensures Wrap(no, seg, total) == PartText(no, seg, total)
  {
    hide Heading, FirstLine, EndLine, LastLine, Strip, Lines, Decimal;
    HeadingIsFirstLine(no, seg, total);
    EndLineIsLastLine(no);
    SixLines(FirstLine(no, seg, total), SecondLine(seg), "", Strip(seg.summary), "", LastLine(no));
    assert Note(seg) == SecondLine(seg);
  }

  /** A part begins with the marker, its number and the bracket. */
  lemma PartBegins(no: nat, seg: Segment, total: nat)
    ensures exists rest :: PartText(no, seg, total) == "## 压缩段 #" + Decimal(no) + "（" + rest
  {
    hide Decimal, Strip, PartText, FirstLine;
    var tail := match seg
      case Compressed(first, last, n, _) => first + " ~ " + last + "，" + Decimal(n) + " 条消息）"
      case Upserted(stamp, n, _) => "~" + stamp + "，本次 +" + Decimal(n) + " 条，累计 " + Decimal(total) + " 条）";
    LineBegins(no, seg, total, tail);
    var after := FirstLineOff(no, seg, total);
    Regroup(FirstLine(no, seg, total), "## 压缩段 #" + Decimal(no) + "（", tail, after);
  }

  lemma FirstLineOff(no: nat, seg: Segment, total: nat) returns (after: string)
    ensures PartText(no, seg, total) == FirstLine(no, seg, total) + after
  {
    hide FirstLine, SecondLine, LastLine, Strip, Lines;
    var line, others := FirstLine(no, seg, total), [SecondLine(seg), "", Strip(seg.summary), "", LastLine(no)];
    LinesCons(line, others);
    assert [line] + others == [line, SecondLine(seg), "", Strip(seg.summary), "", LastLine(no)];
    after := "\n" + Lines(others);
    assert line + "\n" + Lines(others) == line + after;
  }

  lemma Regroup(line: string, head: string, tail: string, after: string)
    requires line == head + tail
    ensures line + after == head + (tail + after)
  {
  }

  lemma LineBegins(no: nat, seg: Segment, total: nat, tail: string)
    requires tail == match seg
      case Compressed(first, last, n, _) => first + " ~ " + last + "，" + Decimal(n) + " 条消息）"
      case Upserted(stamp, n, _) => "~" + stamp + "，本次 +" + Decimal(n) + " 条，累计 " + Decimal(total) + " 条）"
    ensures FirstLine(no, seg, total) == "## 压缩段 #" + Decimal(no) + "（" + tail
  {
    hide Decimal;
    assert "（~" == "（" + "~";
  }

  /** Parts of a text, with a rule between them. */
  function JoinParts(parts: seq<string>): string {
    if parts == [] then "" else if |parts| == 1 then parts[0]
    else JoinParts(parts[..|parts| - 1]) + "\n\n---\n" + parts[|parts| - 1]
  }

  /** Part i of a memory; a first upsert is stored as it is. */
  function PartAt(log: seq<Segment>, i: nat): string
    requires i < |log|
  {
    if i == 0 && log[0].Upserted? then log[0].summary
    else
      var before := if log[0].Upserted? then Count(log[0].summary) else 1;
      PartText(before + i, log[i], TotalMessages(log[..i + 1]))
  }

  function AllParts(log: seq<Segment>): seq<string> {
    seq(|log|, i requires 0 <= i < |log| => PartAt(log, i))
  }

  /** No summary that has become a numbered part, up to n, contains the marker. */
  ghost predicate NoMarkers(log: seq<Segment>, n: nat)
    requires n <= |log|
  {
    forall i | 0 <= i < n && (i > 0 || log[0].Compressed?) :: Count(log[i].summary) == 0
  }

  ghost predicate AllStamped(log: seq<Segment>) {
    forall i | 0 <= i < |log| :: log[i].Stamped()
  }

  lemma {:induction false} NextAfter(log: seq<Segment>)
    requires log != [] && AllStamped(log) && NoMarkers(log, |log|)
    ensures NextNumber(WrittenAll(Absent, log))
            == |log| + (if log[0].Upserted? then Count(log[0].summary) else 1)
  {
    hide Wrap, Join, Strip, Count;
    var n := |log| - 1;
    LastWrite(log);
    if n == 0 {
      assert log[..0] == [];
      if log[0].Compressed? {
        WriteAdvances(Absent, log[0]);
      }
    } else {
      NextAfter(log[..n]);
      PresentAfter(log[..n]);
      WriteAdvances(WrittenAll(Absent, log[..n]), log[n]);
    }
  }

  lemma PresentAfter(log: seq<Segment>)
    requires log != []
    ensures WrittenAll(Absent, log).Present?
  {
    hide Wrap, Join;
    LastWrite(log);
  }

  lemma JoinOnePart(parts: seq<string>, part: string)
    requires parts != []
    ensures JoinParts(parts + [part]) == Join(JoinParts(parts), part)
  {
    assert (parts + [part])[..|parts|] == parts;
    assert "\n" + ("" + "\n" + ("---" + "\n")) == "\n\n---\n";
    JoinIsAppend(JoinParts(parts), part);
  }

  /** The parts of all but the last segment are the parts before the last. */
  lemma PartsOfFront(log: seq<Segment>)
    requires |log| > 1
    ensures AllParts(log) == AllParts(log[..|log| - 1]) + [PartAt(log, |log| - 1)]
  {
    hide PartText, Count;
    var n := |log| - 1;
    var front := log[..n];
    forall i | 0 <= i < n ensures PartAt(front, i) == PartAt(log, i) {
      assert front[..i + 1] == log[..i + 1];
    }
  }

  /**
  The text of a memory, from its first write on: its parts with rules between them, numbered 1 to k
  in order when it began with a compression and no summary before the last contains the marker; the
  stored total is the sum of the sizes. After a raw first text the numbers go on from the markers
  in it.
  */
  lemma {:induction false} TextIsItsParts(log: seq<Segment>)
    requires log != [] && AllStamped(log) && NoMarkers(log, |log| - 1)
    ensures WrittenAll(Absent, log) == Present(JoinParts(AllParts(log)), TotalMessages(log))
  {
    hide Wrap, Join, Strip, Count, PartText, JoinParts;
    var n := |log| - 1;
    LastWrite(log);
    if n == 0 {
      FirstPart(log);
    } else {
      var front, seg := log[..n], log[n];
      TextIsItsParts(front);
      NextAfter(front);
      var m := WrittenAll(Absent, front);
      WriteAt(m, seg, NextNumber(m));
      WrapIsPart(NextNumber(m), seg, m.total + seg.count);
      PartsOfFront(log);
      assert log[..n + 1] == log;
      JoinOnePart(AllParts(front), PartAt(log, n));
    }
  }

  lemma FirstPart(log: seq<Segment>)
    requires |log| == 1
    ensures WrittenAll(Absent, log) == Present(JoinParts(AllParts(log)), TotalMessages(log))
  {
    hide Wrap, PartText, Strip, Count;
    assert log[..0] == [] && log[..1] == log;
    WrapIsPart(1, log[0], log[0].count);
    assert AllParts(log) == [PartAt(log, 0)];
  }
}
