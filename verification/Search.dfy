/** Ranking the chunks of a knowledge base by their score against a query. */
module Search {
  import opened Similarity

  datatype Chunk = Chunk(id: nat, embedding: Vector)

  /** A scored chunk; pos is where it stood in the query result. */
  datatype Hit = Hit(id: nat, score: real, pos: nat)

  /** Any square root function. */
  ghost predicate IsSqrt(sqrt: real -> real) {
    forall x: real :: x >= 0.0 ==> IsRoot(sqrt(x), x)
  }

  function Score(sqrt: real -> real, q: Vector, e: Vector): real {
    Cosine(q, e, sqrt(SumSq(q)), sqrt(SumSq(e)))
  }

  function Scored(sqrt: real -> real, q: Vector, rows: seq<Chunk>): seq<Hit> {
    seq(|rows|, i requires 0 <= i < |rows| => Hit(rows[i].id, Score(sqrt, q, rows[i].embedding), i))
  }

  /** The stable descending sort: equal scores stay in their old order. */
  function SortDescending(hits: seq<Hit>): seq<Hit> {
    if hits == [] then [] else Insert(hits[0], SortDescending(hits[1..]))
  }

  function Insert(h: Hit, sorted: seq<Hit>): seq<Hit> {
    if sorted == [] || h.score >= sorted[0].score then [h] + sorted
    else [sorted[0]] + Insert(h, sorted[1..])
  }

  /** hits[:k] with Python's reading of a negative k. */
  function TopSlice<T>(hits: seq<T>, k: int): seq<T> {
    if k >= |hits| then hits else if k >= 0 then hits[..k]
    else if |hits| + k >= 0 then hits[..|hits| + k] else []
  }

  method SearchTop(sqrt: real -> real, q: Vector, rows: seq<Chunk>, topK: int) returns (r: seq<Hit>)
    ensures r == TopSlice(SortDescending(Scored(sqrt, q, rows)), topK)
  {
    var scored: seq<Hit> := [];
    for i := 0 to |rows|
      invariant scored == Scored(sqrt, q, rows[..i])
    {
      scored := scored + [Hit(rows[i].id, Score(sqrt, q, rows[i].embedding), i)];
    }
    assert rows[..|rows|] == rows;
    scored := SortDescending(scored);
    r := TopSlice(scored, topK);
  }

  // ---------------------------------------------------------------- the order

  /** Higher score first; among equal scores, the earlier row first. */
  predicate Before(a: Hit, b: Hit) {
    a.score > b.score || (a.score == b.score && a.pos < b.pos)
  }

  ghost predicate Ranked(hits: seq<Hit>) {
    forall i, j | 0 <= i < j < |hits| :: Before(hits[i], hits[j])
  }

  ghost predicate InRowOrder(hits: seq<Hit>) {
    forall i, j | 0 <= i < j < |hits| :: hits[i].pos < hits[j].pos
  }

  lemma {:induction false} InsertKeeps(h: Hit, sorted: seq<Hit>)
    ensures multiset(Insert(h, sorted)) == multiset{h} + multiset(sorted)
    ensures forall x :: x in Insert(h, sorted) <==> x == h || x in sorted
  {
    if sorted != [] && h.score < sorted[0].score {
      InsertKeeps(h, sorted[1..]);
      assert sorted == [sorted[0]] + sorted[1..];
    }
  }

  lemma RankedCons(h: Hit, rest: seq<Hit>)
    requires Ranked(rest) && forall x | x in rest :: Before(h, x)
    ensures Ranked([h] + rest)
  {
    var all := [h] + rest;
    forall i, j | 0 <= i < j < |all| ensures Before(all[i], all[j]) {
      assert all[j] == rest[j - 1] && rest[j - 1] in rest;
      if i > 0 {
        assert all[i] == rest[i - 1];
      }
    }
  }

  lemma {:induction false} InsertRanked(h: Hit, sorted: seq<Hit>)
    requires Ranked(sorted) && forall x | x in sorted :: h.pos < x.pos
    ensures Ranked(Insert(h, sorted))
  {
    if sorted == [] {
    } else if h.score >= sorted[0].score {
      forall x | x in sorted ensures Before(h, x) {
        var i :| 0 <= i < |sorted| && sorted[i] == x;
        assert i > 0 ==> Before(sorted[0], sorted[i]);
      }
      RankedCons(h, sorted);
    } else {
      var rest := sorted[1..];
      assert forall i | 0 <= i < |rest| :: rest[i] == sorted[i + 1];
      InsertRanked(h, rest);
      InsertKeeps(h, rest);
      forall x | x in Insert(h, rest) ensures Before(sorted[0], x) {
        if x != h {
          var i :| 0 <= i < |rest| && rest[i] == x;
          assert Before(sorted[0], sorted[i + 1]);
        }
      }
      RankedCons(sorted[0], Insert(h, rest));
    }
  }

  /** Sorting permutes, ranks, and keeps the row order of equal scores. */
  lemma {:induction false} SortRanks(hits: seq<Hit>)
    requires InRowOrder(hits)
    ensures Ranked(SortDescending(hits))
    ensures multiset(SortDescending(hits)) == multiset(hits)
    ensures forall x :: x in SortDescending(hits) <==> x in hits
  {
    if hits == [] {
    } else {
      var rest := hits[1..];
      assert InRowOrder(rest) by {
        assert forall i | 0 <= i < |rest| :: rest[i] == hits[i + 1];
      }
      SortRanks(rest);
      forall x | x in SortDescending(rest) ensures hits[0].pos < x.pos {
        var i :| 0 <= i < |rest| && rest[i] == x;
        assert hits[i + 1] == x;
      }
      InsertRanked(hits[0], SortDescending(rest));
      InsertKeeps(hits[0], SortDescending(rest));
      assert hits == [hits[0]] + rest;
    }
  }

  ghost predicate TopOf(r: seq<Hit>, scored: seq<Hit>, k: int) {
    && |r| == (if k >= |scored| then |scored| else if k >= 0 then k else if |scored| + k >= 0 then |scored| + k else 0)
    && Ranked(r)
    && (forall h | h in r :: h in scored)
    && multiset(r) <= multiset(scored)
    && forall h, o | h in r && o in scored && o !in r :: Before(h, o)
  }

  /**
  The answer is a ranked selection of the rows, of the size asked for when there are that many
  (a negative size leaves that many out), and no omitted row comes before a returned one.
  */
  lemma SearchReturnsTheTop(sqrt: real -> real, q: Vector, rows: seq<Chunk>, topK: int)
    ensures var scored := Scored(sqrt, q, rows);
            TopOf(TopSlice(SortDescending(scored), topK), scored, topK)
  {
    TopSliceIsTop(Scored(sqrt, q, rows), topK);
  }

  lemma PrefixRanks(sorted: seq<Hit>, r: seq<Hit>)
    requires Ranked(sorted) && r <= sorted
    ensures Ranked(r)
  {
    assert forall i | 0 <= i < |r| :: r[i] == sorted[i];
  }

  lemma PrefixBeforeRest(sorted: seq<Hit>, r: seq<Hit>, h: Hit, o: Hit)
    requires Ranked(sorted) && r <= sorted && h in r && o in sorted && o !in r
    ensures Before(h, o)
  {
    var i :| 0 <= i < |r| && r[i] == h;
    var rest := sorted[|r|..];
    assert sorted == r + rest && o in rest;
    var j :| 0 <= j < |rest| && rest[j] == o;
    assert Before(sorted[i], sorted[|r| + j]);
  }

  lemma PrefixCounts(sorted: seq<Hit>, r: seq<Hit>)
    requires r <= sorted
    ensures multiset(r) <= multiset(sorted)
  {
    assert sorted == r + sorted[|r|..];
  }

  lemma TopSliceIsTop(scored: seq<Hit>, k: int)
    requires InRowOrder(scored)
    ensures TopOf(TopSlice(SortDescending(scored), k), scored, k)
  {
    hide Ranked, InRowOrder, SortDescending, Before;
    SortRanks(scored);
    var sorted := SortDescending(scored);
    assert |multiset(sorted)| == |multiset(scored)|;
    var r := TopSlice(sorted, k);
    PrefixRanks(sorted, r);
    PrefixCounts(sorted, r);
    assert forall h | h in r :: h in sorted;
    forall h, o | h in r && o in scored && o !in r ensures Before(h, o) {
      PrefixBeforeRest(sorted, r, h, o);
    }
  }

  /** The rows as stored: every embedding fitted to the column. */
  function Fitted(rows: seq<Chunk>, n: nat): seq<Chunk> {
    seq(|rows|, i requires 0 <= i < |rows| => Chunk(rows[i].id, FitTo(rows[i].embedding, n)))
  }

  /** Zero-padding short vectors to the column width does not change the ranking. */
  lemma PaddingKeepsRanking(sqrt: real -> real, q: Vector, rows: seq<Chunk>, n: nat, topK: int)
    requires IsSqrt(sqrt) && 0 < n && |q| <= n
    requires forall i | 0 <= i < |rows| :: |rows[i].embedding| <= n
    ensures TopSlice(SortDescending(Scored(sqrt, FitTo(q, n), Fitted(rows, n))), topK)
            == TopSlice(SortDescending(Scored(sqrt, q, rows)), topK)
  {
    forall i | 0 <= i < |rows|
      ensures Score(sqrt, FitTo(q, n), FitTo(rows[i].embedding, n)) == Score(sqrt, q, rows[i].embedding)
    {
      var e := rows[i].embedding;
      SumSqNonNegative(q);
      SumSqNonNegative(e);
      FittingKeepsSums(q, e, n);
      PaddingKeepsScore(q, e, sqrt(SumSq(q)), sqrt(SumSq(e)), n);
    }
    assert Scored(sqrt, FitTo(q, n), Fitted(rows, n)) == Scored(sqrt, q, rows);
  }

  // ---------------------------------------------------------------- what a hit says about its row

  /** A hit is about a row: its id, and the score that the row's embedding has against the query. */
  ghost predicate TellsOf(h: Hit, sqrt: real -> real, q: Vector, rows: seq<Chunk>) {
    && h.pos < |rows| && h.id == rows[h.pos].id
    && var e := rows[h.pos].embedding;
       && h.score * (sqrt(SumSq(q)) * sqrt(SumSq(e))) == Dot(q, e)
       && (sqrt(SumSq(q)) == 0.0 || sqrt(SumSq(e)) == 0.0 ==> h.score == 0.0)
  }

  /** Score times norms is the dot product, also where a norm is zero. */
  lemma ScoreTimesNorms(q: Vector, e: Vector, nq: real, ne: real)
    requires IsRoot(nq, SumSq(q)) && IsRoot(ne, SumSq(e))
    ensures Cosine(q, e, nq, ne) * (nq * ne) == Dot(q, e)
    ensures nq == 0.0 || ne == 0.0 ==> Cosine(q, e, nq, ne) == 0.0
  {
    CauchySchwarz(q, e);
    if nq == 0.0 || ne == 0.0 {
      NoNormNoDot(Dot(q, e), SumSq(q), SumSq(e), nq, ne);
    } else if q == [] || e == [] {
      assert Dot(q, e) == 0.0;
    } else {
      var p := Positive(nq, ne);
      assert Dot(q, e) / p * p == Dot(q, e);
    }
  }

  lemma NoNormNoDot(d: real, sq: real, se: real, nq: real, ne: real)
    requires IsRoot(nq, sq) && IsRoot(ne, se) && (nq == 0.0 || ne == 0.0) && d * d <= sq * se
    ensures d == 0.0 && nq * ne == 0.0
  {
    var dd := Square(d);
    assert sq * se == 0.0;
  }

  lemma NormsOf(sqrt: real -> real, v: Vector)
    requires IsSqrt(sqrt)
    ensures IsRoot(sqrt(SumSq(v)), SumSq(v))
  {
    SumSqNonNegative(v);
  }

  /** Every answer names a row and scores that row against the query. */
  lemma HitsTellOfTheirRows(sqrt: real -> real, q: Vector, rows: seq<Chunk>, topK: int)
    requires IsSqrt(sqrt)
    ensures forall h | h in TopSlice(SortDescending(Scored(sqrt, q, rows)), topK) :: TellsOf(h, sqrt, q, rows)
  {
    hide SortDescending, Dot, SumSq, Cosine, IsSqrt;
    var scored := Scored(sqrt, q, rows);
    SearchReturnsTheTop(sqrt, q, rows, topK);
    forall h | h in TopSlice(SortDescending(scored), topK) ensures TellsOf(h, sqrt, q, rows) {
      assert h in scored;
      var i :| 0 <= i < |scored| && scored[i] == h;
      NormsOf(sqrt, q);
      NormsOf(sqrt, rows[i].embedding);
      ScoreTimesNorms(q, rows[i].embedding, sqrt(SumSq(q)), sqrt(SumSq(rows[i].embedding)));
    }
  }

  /** A positive multiple of a non-zero vector scores 1 against it. */
  lemma MultipleScoresOne(q: Vector, k: real, nq: real, ne: real)
    requires k > 0.0 && SumSq(q) != 0.0 && IsRoot(nq, SumSq(q)) && IsRoot(ne, SumSq(Scale(k, q)))
    ensures Cosine(q, Scale(k, q), nq, ne) == 1.0
  {
    ScoreIgnoresFirstLength(k, q, q, nq, nq);
    RootsAgree(ne, k * nq, SumSq(Scale(k, q)));
    ScoreSymmetric(Scale(k, q), q, k * nq, nq);
    SumSqNonNegative(q);
    SelfScore(q, nq);
  }

  lemma RootsAgree(a: real, b: real, x: real)
    requires IsRoot(a, x) && IsRoot(b, x)
    ensures a == b
  {
    RootOrder(a, b);
    RootOrder(b, a);
  }

  /** If some row is a positive multiple of a non-zero query, the first of the hits asked for scores 1. */
  lemma BestHitScoresOne(sqrt: real -> real, q: Vector, rows: seq<Chunk>, topK: nat, i: nat, k: real)
    requires IsSqrt(sqrt) && SumSq(q) != 0.0 && topK > 0
    requires i < |rows| && k > 0.0 && rows[i].embedding == Scale(k, q)
    ensures var r := TopSlice(SortDescending(Scored(sqrt, q, rows)), topK); r != [] && r[0].score == 1.0
  {
    hide SortDescending, Dot, SumSq, Cosine, IsSqrt, Scale;
    var scored := Scored(sqrt, q, rows);
    var r := TopSlice(SortDescending(scored), topK);
    NormsOf(sqrt, q);
    NormsOf(sqrt, Scale(k, q));
    MultipleScoresOne(q, k, sqrt(SumSq(q)), sqrt(SumSq(Scale(k, q))));
    assert scored[i].score == 1.0 && scored[i] in scored;
    SearchReturnsTheTop(sqrt, q, rows, topK);
    var best := r[0];
    assert best in r && best in scored;
    var j :| 0 <= j < |scored| && scored[j] == best;
    NormsOf(sqrt, rows[j].embedding);
    ScoreBounded(q, rows[j].embedding, sqrt(SumSq(q)), sqrt(SumSq(rows[j].embedding)));
    if scored[i] in r {
      var l :| 0 <= l < |r| && r[l] == scored[i];
      assert l > 0 ==> Before(r[0], r[l]);
    } else {
      assert Before(best, scored[i]);
    }
  }
}
