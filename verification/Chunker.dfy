/** Splitting a document into overlapping windows for indexing. */
module Chunker {
  import opened Text

  datatype Chunked = Chunks(value: seq<string>) | ValueError

  /** A window [from, to) of the text. */
  datatype Window = Window(from: nat, to: nat)

  /** Where text[start:start + size] ends, with Python's reading of an end before the beginning. */
  function SliceEnd(n: nat, start: nat, size: int): (to: nat)
    requires start <= n
    ensures start <= to <= n
  {
    var e := start + size;
    var end := if e >= n then n else if e >= 0 then e else if n + e >= 0 then n + e else 0;
    if end >= start then end else start
  }

  /** Where it ends, case by case: past the end, inside, and counted from the end when it is negative. */
  lemma SliceEndIs(n: nat, start: nat, size: int)
    requires start <= n
    ensures start + size >= n ==> SliceEnd(n, start, size) == n
    ensures 0 <= size && start + size < n ==> SliceEnd(n, start, size) == start + size
    ensures size < 0 <= start + size ==> SliceEnd(n, start, size) == start
    ensures start + size < 0 ==> SliceEnd(n, start, size) == if n + size >= 0 then n + start + size else start
    ensures start + size < 0 && n + size >= 0 ==> start <= n + start + size
  {
  }

  /** The windows the loop visits from start on: every step, until one reaches the end. */
  function Windows(n: nat, size: int, step: nat, start: nat): (ws: seq<Window>)
    requires step > 0
    ensures forall i | 0 <= i < |ws| :: ws[i].from <= ws[i].to <= n
    decreases n - start
  {
    if start >= n then []
    else if start + size >= n then [Window(start, n)]
    else [Window(start, SliceEnd(n, start, size))] + Windows(n, size, step, start + step)
  }

  predicate Blank(s: string) {
    Strip(s) == ""
  }

  function Slice(text: string, w: Window): string
    requires w.from <= w.to <= |text|
  {
    text[w.from..w.to]
  }

  predicate Inside(ws: seq<Window>, n: nat) {
    forall i | 0 <= i < |ws| :: ws[i].from <= ws[i].to <= n
  }

  /** The chunks kept from some windows: those that are not blank. */
  function Kept(text: string, ws: seq<Window>): seq<string>
    requires Inside(ws, |text|)
  {
    if ws == [] then []
    else
      var c := Slice(text, ws[0]);
      (if Blank(c) then [] else [c]) + Kept(text, ws[1..])
  }

  /** The chunks the loop adds from start on. */
  function KeptFrom(text: string, size: int, step: nat, start: nat): seq<string>
    requires step > 0
  {
    Kept(text, Windows(|text|, size, step, start))
  }

  /** An empty text is answered before the sizes are looked at. */
  method ChunkText(text: string, chunkSize: int, overlap: int) returns (r: Chunked)
    ensures text == "" ==> r == Chunks([])
    ensures text != "" && chunkSize <= overlap ==> r == ValueError
    ensures text != "" && chunkSize > overlap ==> r == Chunks(KeptFrom(text, chunkSize, chunkSize - overlap, 0))
  {
    hide KeptFrom, Strip;
    if text == "" {
      return Chunks([]);
    }
    if chunkSize <= overlap {
      return ValueError;
    }
    var chunks: seq<string> := [];
    var step: nat := chunkSize - overlap;
    var start: nat := 0;
    while start < |text|
      invariant chunks + KeptFrom(text, chunkSize, step, start) == KeptFrom(text, chunkSize, step, 0)
      decreases |text| - start
    {
      KeptStep(text, chunkSize, step, start);
      var chunk := text[start..SliceEnd(|text|, start, chunkSize)];
      if Strip(chunk) != "" {
        chunks := chunks + [chunk];
      }
      if start + chunkSize >= |text| {
        return Chunks(chunks);
      }
      start := start + step;
    }
    KeptPastEnd(text, chunkSize, step, start);
    r := Chunks(chunks);
  }

  lemma KeptStep(text: string, size: int, step: nat, start: nat)
    requires step > 0 && start < |text|
    ensures var c := text[start..SliceEnd(|text|, start, size)];
            var later := if start + size >= |text| then [] else KeptFrom(text, size, step, start + step);
            KeptFrom(text, size, step, start) == if Strip(c) == "" then later else [c] + later
  {
    var ws := Windows(|text|, size, step, start);
    assert ws[1..] == if start + size >= |text| then [] else Windows(|text|, size, step, start + step);
    var c := text[start..SliceEnd(|text|, start, size)];
    assert Slice(text, ws[0]) == c;
    assert Kept(text, ws) == (if Blank(c) then [] else [c]) + Kept(text, ws[1..]);
  }

  lemma KeptPastEnd(text: string, size: int, step: nat, start: nat)
    requires step > 0 && start >= |text|
    ensures KeptFrom(text, size, step, start) == []
  {
  }

  // ---------------------------------------------------------------- shape

  /** Window i is full, and the next one starts a step later. */
  predicate FullThenStep(ws: seq<Window>, i: nat, size: nat, step: nat)
    requires i + 1 < |ws|
  {
    ws[i].to - ws[i].from == size && ws[i + 1].from == ws[i].from + step
  }

  ghost predicate Shaped(ws: seq<Window>, n: nat, size: nat, step: nat) {
    && ws != [] && ws[|ws| - 1].to == n
    && (forall i: nat | i + 1 < |ws| :: FullThenStep(ws, i, size, step))
    && (forall i | 1 <= i < |ws| :: ws[i].to - ws[i].from > size - step)
  }

  /**
  With a step no longer than a window: the windows start a step apart, all but the last are
  exactly size long, the last ends at the end of the text, and every window after the first is
  longer than the overlap.
  */
  lemma {:induction false} WindowShape(n: nat, size: nat, step: nat, start: nat)
    requires 0 < step <= size && start < n
    ensures Shaped(Windows(n, size, step, start), n, size, step)
    ensures Windows(n, size, step, start)[0].from == start
    decreases n - start
  {
    if start + size < n {
      WindowShape(n, size, step, start + step);
      var rest := Windows(n, size, step, start + step);
      if |rest| == 1 {
        assert rest[0].to == n;
      } else {
        assert FullThenStep(rest, 0, size, step);
      }
      ShapeCons(Window(start, start + size), rest, n, size, step);
    }
  }

  lemma ShapeCons(w: Window, rest: seq<Window>, n: nat, size: nat, step: nat)
    requires Shaped(rest, n, size, step) && rest[0].to - rest[0].from > size - step
    requires rest[0].from == w.from + step && w.to == w.from + size
    ensures Shaped([w] + rest, n, size, step)
  {
    var ws := [w] + rest;
    forall i: nat | i + 1 < |ws| ensures FullThenStep(ws, i, size, step) {
      if i > 0 {
        assert FullThenStep(rest, i - 1, size, step);
      }
    }
    forall i | 1 <= i < |ws| ensures ws[i].to - ws[i].from > size - step {
      assert ws[i] == rest[i - 1];
    }
  }

  ghost predicate Covers(ws: seq<Window>, p: nat) {
    exists i :: 0 <= i < |ws| && ws[i].from <= p < ws[i].to
  }

  ghost predicate NothingSkipped(ws: seq<Window>, n: nat) {
    forall p: nat | p < n :: Covers(ws, p)
  }

  /** A window around position p whose slice was kept as a chunk. */
  ghost predicate KeptAt(text: string, ws: seq<Window>, p: nat)
    requires Inside(ws, |text|)
  {
    exists i :: 0 <= i < |ws| && ws[i].from <= p < ws[i].to && Slice(text, ws[i]) in Kept(text, ws)
  }

  lemma {:induction false} CoversFrom(n: nat, size: nat, step: nat, start: nat, p: nat)
    requires 0 < step <= size && start <= p < n
    ensures Covers(Windows(n, size, step, start), p)
    decreases n - start
  {
    var ws := Windows(n, size, step, start);
    if p < start + size {
      assert ws[0].from <= p < ws[0].to;
    } else {
      CoversFrom(n, size, step, start + step, p);
      var rest := Windows(n, size, step, start + step);
      var i :| 0 <= i < |rest| && rest[i].from <= p < rest[i].to;
      assert ws[i + 1] == rest[i];
    }
  }

  lemma {:induction false} WindowsStartAtOrAfter(n: nat, size: int, step: nat, start: nat)
    requires step > 0
    ensures forall i | 0 <= i < |Windows(n, size, step, start)| :: Windows(n, size, step, start)[i].from >= start
    decreases n - start
  {
    if start < n && start + size < n {
      WindowsStartAtOrAfter(n, size, step, start + step);
    }
  }

  lemma {:induction false} EmptyWindowsMissTheEnd(n: nat, size: int, step: nat, start: nat)
    requires step > 0 && size <= 0
    ensures forall i | 0 <= i < |Windows(n, size, step, start)| ::
              var w := Windows(n, size, step, start)[i]; w.from == w.to || w.to < n
    decreases n - start
  {
    if start < n {
      EmptyWindowsMissTheEnd(n, size, step, start + step);
    }
  }

  /**
  Exactly when no part of the text is skipped: the overlap is not negative, or one window is
  enough. A negative overlap leaves a gap after the first window, or, under a size that is not
  positive, at the end.
  */
  lemma NothingSkippedIff(n: nat, size: int, overlap: int)
    requires overlap < size
    ensures NothingSkipped(Windows(n, size, size - overlap, 0), n) <==> overlap >= 0 || n <= size || n == 0
  {
    var step := size - overlap;
    var ws := Windows(n, size, step, 0);
    if overlap >= 0 {
      forall p: nat | p < n ensures Covers(ws, p) {
        CoversFrom(n, size, step, 0, p);
      }
    } else if n <= size {
      forall p: nat | p < n ensures Covers(ws, p) {
        assert ws[0].from <= p < ws[0].to;
      }
    } else if size <= 0 {
      EmptyWindowsMissTheEnd(n, size, step, 0);
      assert n > 0 ==> !Covers(ws, n - 1);
    } else {
      WindowsStartAtOrAfter(n, size, step, step);
      var rest := Windows(n, size, step, step);
      assert forall i | 1 <= i < |ws| :: ws[i] == rest[i - 1];
      assert !Covers(ws, size);
    }
  }

  lemma {:induction false} KeptHolds(text: string, ws: seq<Window>, i: nat)
    requires Inside(ws, |text|) && i < |ws| && !Blank(Slice(text, ws[i]))
    ensures Slice(text, ws[i]) in Kept(text, ws)
  {
    if i == 0 {
    } else {
      KeptHolds(text, ws[1..], i - 1);
    }
  }

  /** Every position that is not whitespace lies in a kept chunk. */
  lemma EverySolidCharacterIsKept(text: string, size: nat, overlap: nat, p: nat)
    requires overlap < size && p < |text| && !IsSpace(text[p])
    ensures KeptAt(text, Windows(|text|, size, size - overlap, 0), p)
  {
    var ws := Windows(|text|, size, size - overlap, 0);
    CoversFrom(|text|, size, size - overlap, 0, p);
    var i :| 0 <= i < |ws| && ws[i].from <= p < ws[i].to;
    var c := Slice(text, ws[i]);
    assert c[p - ws[i].from] == text[p];
    StripEmptyIff(c);
    KeptHolds(text, ws, i);
  }

  // ---------------------------------------------------------------- rebuilding

  /** The later chunks without their overlap prefixes, joined. */
  function Tails(chunks: seq<string>, overlap: nat): string {
    if chunks == [] then ""
    else (if |chunks[0]| <= overlap then "" else chunks[0][overlap..]) + Tails(chunks[1..], overlap)
  }

  /** The first chunk, then each later chunk less its overlap prefix. */
  function Rebuild(chunks: seq<string>, overlap: nat): string {
    if chunks == [] then "" else chunks[0] + Tails(chunks[1..], overlap)
  }

  function Slices(text: string, ws: seq<Window>): seq<string>
    requires Inside(ws, |text|)
  {
    if ws == [] then [] else [Slice(text, ws[0])] + Slices(text, ws[1..])
  }

  ghost predicate NoneBlank(text: string, ws: seq<Window>)
    requires Inside(ws, |text|)
  {
    forall i | 0 <= i < |ws| :: !Blank(Slice(text, ws[i]))
  }

  lemma TailsIsRestOfRebuild(chunks: seq<string>, overlap: nat)
    requires chunks != [] && |chunks[0]| > overlap
    ensures Tails(chunks, overlap) == Rebuild(chunks, overlap)[overlap..]
  {
  }

  lemma NoTails(overlap: nat)
    ensures Tails([], overlap) == ""
  {
  }

  lemma RebuildIsHeadThenTails(c: string, rest: seq<string>, overlap: nat)
    ensures Rebuild([c] + rest, overlap) == c + Tails(rest, overlap)
  {
    assert ([c] + rest)[1..] == rest;
  }

  /** Prepending a window to chunks that rebuild the text from one step later. */
  lemma PrependWindow(text: string, size: nat, overlap: nat, start: nat, chunks: seq<string>)
    requires overlap < size && start + size < |text| && chunks != [] && |chunks[0]| > overlap
    requires Rebuild(chunks, overlap) == text[start + (size - overlap)..]
    ensures Rebuild([text[start..start + size]] + chunks, overlap) == text[start..]
  {
    hide Tails, Rebuild;
    RebuildIsHeadThenTails(text[start..start + size], chunks, overlap);
    TailsIsRestOfRebuild(chunks, overlap);
    assert text[start + (size - overlap)..][overlap..] == text[start + size..];
    assert text[start..start + size] + text[start + size..] == text[start..];
  }

  lemma {:induction false} SlicesRebuild(text: string, size: nat, overlap: nat, start: nat)
    requires overlap < size && start < |text|
    ensures Rebuild(Slices(text, Windows(|text|, size, size - overlap, start)), overlap) == text[start..]
    decreases |text| - start
  {
    hide Tails, Rebuild;
    var step := size - overlap;
    var ws := Windows(|text|, size, step, start);
    if start + size >= |text| {
      assert ws[1..] == [] && Slices(text, ws) == [Slice(text, ws[0])] + [];
      assert text[start..|text|] == text[start..];
      RebuildIsHeadThenTails(text[start..], [], overlap);
      NoTails(overlap);
    } else {
      var rest := Windows(|text|, size, step, start + step);
      assert ws[1..] == rest;
      SlicesRebuild(text, size, overlap, start + step);
      assert |Slices(text, rest)[0]| > overlap;
      PrependWindow(text, size, overlap, start, Slices(text, rest));
    }
  }

  lemma {:induction false} KeptIsSlices(text: string, ws: seq<Window>)
    requires Inside(ws, |text|) && NoneBlank(text, ws)
    ensures Kept(text, ws) == Slices(text, ws)
  {
    if ws == [] {
    } else {
      assert forall i | 0 <= i < |ws| - 1 :: ws[1..][i] == ws[i + 1];
      KeptIsSlices(text, ws[1..]);
    }
  }

  lemma TailsCons(c: string, rest: seq<string>, overlap: nat)
    requires |c| > overlap
    ensures |Tails([c] + rest, overlap)| == |c| - overlap + |Tails(rest, overlap)|
  {
    assert ([c] + rest)[1..] == rest;
  }

  /** Dropping a window that is longer than the overlap shortens the joined tails. */
  lemma {:induction false} TailsOfKept(text: string, ws: seq<Window>, overlap: nat)
    requires Inside(ws, |text|) && forall i | 0 <= i < |ws| :: ws[i].to - ws[i].from > overlap
    ensures |Tails(Kept(text, ws), overlap)| <= |Tails(Slices(text, ws), overlap)|
    ensures !NoneBlank(text, ws) ==> |Tails(Kept(text, ws), overlap)| < |Tails(Slices(text, ws), overlap)|
  {
    hide Tails, Blank;
    if ws == [] {
    } else {
      var rest := ws[1..];
      assert forall i | 0 <= i < |rest| :: rest[i] == ws[i + 1];
      TailsOfKept(text, rest, overlap);
      var c := Slice(text, ws[0]);
      TailsCons(c, Slices(text, rest), overlap);
      if Blank(c) {
        assert Kept(text, ws) == Kept(text, rest);
      } else {
        TailsCons(c, Kept(text, rest), overlap);
        assert !NoneBlank(text, ws) ==> !NoneBlank(text, rest);
      }
    }
  }

  lemma FewerTailsShorter(c: string, kept: seq<string>, slices: seq<string>, overlap: nat)
    requires |Tails(kept, overlap)| < |Tails(slices, overlap)|
    ensures |Rebuild([c] + kept, overlap)| < |Rebuild([c] + slices, overlap)|
  {
    hide Tails, Rebuild;
    RebuildIsHeadThenTails(c, kept, overlap);
    RebuildIsHeadThenTails(c, slices, overlap);
  }

  lemma {:induction false} KeptIsShorter(text: string, size: nat, overlap: nat, start: nat)
    requires overlap < size && start < |text|
    requires !NoneBlank(text, Windows(|text|, size, size - overlap, start))
    ensures |Rebuild(Kept(text, Windows(|text|, size, size - overlap, start)), overlap)| < |text| - start
    decreases |text| - start
  {
    hide Tails, Blank, Rebuild;
    var step := size - overlap;
    var ws := Windows(|text|, size, step, start);
    var rest := ws[1..];
    assert rest == if start + size < |text| then Windows(|text|, size, step, start + step) else [];
    var c := Slice(text, ws[0]);
    if Blank(c) {
      assert Kept(text, ws) == Kept(text, rest);
      KeptRestIsShorter(text, size, overlap, start);
    } else {
      WindowShape(|text|, size, step, start);
      SlicesRebuild(text, size, overlap, start);
      assert forall i | 0 <= i < |rest| :: rest[i] == ws[i + 1];
      assert !NoneBlank(text, rest);
      TailsOfKept(text, rest, overlap);
      FewerTailsShorter(c, Kept(text, rest), Slices(text, rest), overlap);
      assert Kept(text, ws) == [c] + Kept(text, rest) && Slices(text, ws) == [c] + Slices(text, rest);
    }
  }

  lemma {:induction false} KeptRestIsShorter(text: string, size: nat, overlap: nat, start: nat)
    requires overlap < size && start < |text|
    ensures |Rebuild(Kept(text, Windows(|text|, size, size - overlap, start)[1..]), overlap)| < |text| - start
    decreases |text| - start, 0
  {
    hide Tails, Blank;
    var step := size - overlap;
    var rest := Windows(|text|, size, step, start)[1..];
    if start + size < |text| {
      assert rest == Windows(|text|, size, step, start + step);
      if NoneBlank(text, rest) {
        KeptIsSlices(text, rest);
        SlicesRebuild(text, size, overlap, start + step);
      } else {
        KeptIsShorter(text, size, overlap, start + step);
      }
    } else {
      assert rest == [];
    }
  }

  /** The chunks rebuild the text exactly when no window was blank. */
  lemma RebuildsIffNoneBlank(text: string, size: nat, overlap: nat)
    requires overlap < size && text != ""
    ensures var ws := Windows(|text|, size, size - overlap, 0);
            Rebuild(Kept(text, ws), overlap) == text <==> NoneBlank(text, ws)
  {
    var ws := Windows(|text|, size, size - overlap, 0);
    if NoneBlank(text, ws) {
      KeptIsSlices(text, ws);
      SlicesRebuild(text, size, overlap, 0);
      assert text[0..] == text;
    } else {
      KeptIsShorter(text, size, overlap, 0);
    }
  }

  /** Every kept chunk has a character that is not whitespace. */
  lemma {:induction false} KeptIsSolid(text: string, ws: seq<Window>)
    requires Inside(ws, |text|)
    ensures forall c | c in Kept(text, ws) :: !AllSpace(c)
  {
    if ws == [] {
    } else {
      KeptIsSolid(text, ws[1..]);
      StripEmptyIff(Slice(text, ws[0]));
    }
  }
}
