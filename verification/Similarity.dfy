/**
Cosine similarity and vector fitting over exact reals. The square root the score divides by is a
parameter: any number with the defining property.
*/
module Similarity {

  type Vector = seq<real>

  const EMBEDDING_DIM: nat := 1536

  /** sum(x * y for x, y in zip(a, b)): the longer vector is cut to the shorter. */
  function Dot(a: Vector, b: Vector): real {
    if a == [] || b == [] then 0.0 else a[0] * b[0] + Dot(a[1..], b[1..])
  }

  function SumSq(a: Vector): real {
    if a == [] then 0.0 else a[0] * a[0] + SumSq(a[1..])
  }

  predicate IsRoot(r: real, x: real) {
    r >= 0.0 && r * r == x
  }

  function Cosine(a: Vector, b: Vector, na: real, nb: real): real {
    if a == [] || b == [] then 0.0
    else if na == 0.0 || nb == 0.0 then 0.0
    else Dot(a, b) / (na * nb)
  }

  lemma {:induction false} SumSqNonNegative(a: Vector)
    ensures SumSq(a) >= 0.0
    ensures SumSq(a) == 0.0 <==> forall i | 0 <= i < |a| :: a[i] == 0.0
  {
    if a == [] {
    } else {
      SumSqNonNegative(a[1..]);
      var head := Square(a[0]);
      assert forall i | 1 <= i < |a| :: a[i] == a[1..][i - 1];
    }
  }

  lemma Product(x: real, y: real)
    requires x > 0.0 && y > 0.0
    ensures x * y > 0.0
  {
  }

  /** The square of x, named: a square is not negative, and zero only for zero. */
  lemma Square(x: real) returns (s: real)
    ensures s == x * x && s >= 0.0
    ensures s == 0.0 <==> x == 0.0
  {
    s := x * x;
    if x < 0.0 {
      var p := Positive(-x, -x);
      assert (-x) * (-x) == x * x;
    } else if x > 0.0 {
      var p := Positive(x, x);
    }
  }

  lemma Positive(x: real, y: real) returns (p: real)
    requires x > 0.0 && y > 0.0
    ensures p == x * y && p > 0.0
  {
    p := x * y;
  }

  lemma Difference(q: real, p: real)
    ensures (q - p) * (q + p) == q * q - p * p
  {
  }

  lemma SquareGrows(q: real, p: real)
    requires q > p >= 0.0
    ensures q * q > p * p
  {
    Product(q - p, q + p);
    Difference(q, p);
  }

  lemma RootOrder(q: real, p: real)
    requires p >= 0.0 && q * q <= p * p
    ensures -p <= q <= p
  {
    if q > p {
      SquareGrows(q, p);
    } else if -q > p {
      assert (-q) * (-q) == q * q;
      SquareGrows(-q, p);
    }
  }

  /** 2xyD <= xxB + yyA, the cross term of the inductive step. */
  lemma CrossTerm(x: real, y: real, d: real, a: real, b: real)
    requires a >= 0.0 && b >= 0.0 && d * d <= a * b
    ensures 2.0 * (x * y * d) <= x * x * b + y * y * a
  {
    var u, v := x * x, y * y;
    var p, q := u * b + v * a, 2.0 * (x * y * d);
    var xx := Square(x);
    var yy := Square(y);
    assert u * b >= 0.0 && v * a >= 0.0;
    assert q * q == 4.0 * ((u * v) * (d * d)) by {
      assert (x * y * d) * (x * y * d) == (u * v) * (d * d);
    }
    assert u * v >= 0.0;
    assert (u * v) * (d * d) <= (u * v) * (a * b);
    assert (u * v) * (a * b) == (u * b) * (v * a);
    AmGm(u * b, v * a);
    RootOrder(q, p);
  }

  lemma AmGm(s: real, t: real)
    ensures 4.0 * (s * t) <= (s + t) * (s + t)
  {
    var gap := Square(s - t);
    assert (s + t) * (s + t) - 4.0 * (s * t) == (s - t) * (s - t);
  }

  /** The truncated product is bounded by the full norms, whatever the lengths. */
  lemma {:induction false} CauchySchwarz(a: Vector, b: Vector)
    ensures Dot(a, b) * Dot(a, b) <= SumSq(a) * SumSq(b)
  {
    SumSqNonNegative(a);
    SumSqNonNegative(b);
    if a != [] && b != [] {
      var x, y, d := a[0], b[0], Dot(a[1..], b[1..]);
      var sa, sb := SumSq(a[1..]), SumSq(b[1..]);
      CauchySchwarz(a[1..], b[1..]);
      SumSqNonNegative(a[1..]);
      SumSqNonNegative(b[1..]);
      CrossTerm(x, y, d, sa, sb);
      Expand(x, y, d, sa, sb);
    } else {
      assert SumSq(a) * SumSq(b) >= 0.0;
    }
  }

  lemma Expand(x: real, y: real, d: real, sa: real, sb: real)
    ensures (x * y + d) * (x * y + d) == (x * y) * (x * y) + 2.0 * (x * y * d) + d * d
    ensures (x * x + sa) * (y * y + sb) == (x * y) * (x * y) + (x * x * sb + y * y * sa) + sa * sb
  {
    assert (x * x) * (y * y) == (x * y) * (x * y);
  }

  /** Every score lies between -1 and 1. */
  lemma ScoreBounded(a: Vector, b: Vector, na: real, nb: real)
    requires IsRoot(na, SumSq(a)) && IsRoot(nb, SumSq(b))
    ensures -1.0 <= Cosine(a, b, na, nb) <= 1.0
  {
    hide Dot, SumSq;
    if a != [] && b != [] && na != 0.0 && nb != 0.0 {
      CauchySchwarz(a, b);
      BoundedByRoots(Dot(a, b), SumSq(a), SumSq(b), na, nb);
    }
  }

  lemma SquareOfProduct(x: real, y: real)
    ensures (x * y) * (x * y) == (x * x) * (y * y)
  {
  }

  lemma BoundedByRoots(d: real, sa: real, sb: real, na: real, nb: real)
    requires IsRoot(na, sa) && IsRoot(nb, sb) && na != 0.0 && nb != 0.0 && d * d <= sa * sb
    ensures -1.0 <= d / (na * nb) <= 1.0
  {
    var p := na * nb;
    Product(na, nb);
    SquareOfProduct(na, nb);
    RootOrder(d, p);
    Quotient(d, p);
  }

  lemma GreaterTimes(q: real, p: real)
    requires p > 0.0 && q > 1.0
    ensures q * p > p
  {
    assert (q - 1.0) * p > 0.0;
  }

  lemma Negated(q: real, p: real)
    ensures (-q) * p == -(q * p)
  {
  }

  lemma Quotient(d: real, p: real)
    requires p > 0.0 && -p <= d <= p
    ensures -1.0 <= d / p <= 1.0
  {
    var q := d / p;
    assert q * p == d;
    if q > 1.0 {
      GreaterTimes(q, p);
    } else if q < -1.0 {
      Negated(q, p);
      GreaterTimes(-q, p);
    }
  }

  lemma {:induction false} DotSelf(a: Vector)
    ensures Dot(a, a) == SumSq(a)
  {
    if a == [] {
    } else {
      DotSelf(a[1..]);
    }
  }

  /** A vector scores 1 with itself, unless it is zero (or empty) and scores 0. */
  lemma SelfScore(a: Vector, n: real)
    requires IsRoot(n, SumSq(a))
    ensures Cosine(a, a, n, n) == if exists i :: 0 <= i < |a| && a[i] != 0.0 then 1.0 else 0.0
  {
    SumSqNonNegative(a);
    var nn := Square(n);
    if n != 0.0 {
      DotSelf(a);
      var s := SumSq(a);
      assert s != 0.0 && s / s == 1.0;
    }
  }

  function Scale(k: real, a: Vector): Vector {
    if a == [] then [] else [k * a[0]] + Scale(k, a[1..])
  }

  lemma {:induction false} ScaledSums(k: real, a: Vector, b: Vector)
    ensures Dot(Scale(k, a), b) == k * Dot(a, b)
    ensures SumSq(Scale(k, a)) == k * k * SumSq(a)
    decreases |a| + |b|
  {
    if a == [] {
    } else {
      assert Scale(k, a)[1..] == Scale(k, a[1..]);
      ScaledSums(k, a[1..], if b == [] then [] else b[1..]);
      assert (k * a[0]) * (k * a[0]) == k * k * (a[0] * a[0]);
      assert k * k * (a[0] * a[0] + SumSq(a[1..])) == k * k * (a[0] * a[0]) + k * k * SumSq(a[1..]);
      if b != [] {
        assert k * (a[0] * b[0] + Dot(a[1..], b[1..])) == k * a[0] * b[0] + k * Dot(a[1..], b[1..]);
      }
    }
  }

  lemma {:induction false} ScaleLength(k: real, a: Vector)
    ensures |Scale(k, a)| == |a|
  {
    if a == [] {
    } else {
      ScaleLength(k, a[1..]);
    }
  }

  lemma {:induction false} DotSymmetric(a: Vector, b: Vector)
    ensures Dot(a, b) == Dot(b, a)
  {
    if a == [] || b == [] {
    } else {
      DotSymmetric(a[1..], b[1..]);
    }
  }

  lemma ScoreSymmetric(a: Vector, b: Vector, na: real, nb: real)
    ensures Cosine(a, b, na, nb) == Cosine(b, a, nb, na)
  {
    DotSymmetric(a, b);
    assert na * nb == nb * na;
  }

  /** Positive scaling of the first vector leaves the score alone. */
  lemma ScoreIgnoresFirstLength(k: real, a: Vector, b: Vector, na: real, nb: real)
    requires k > 0.0 && IsRoot(na, SumSq(a)) && IsRoot(nb, SumSq(b))
    ensures IsRoot(k * na, SumSq(Scale(k, a)))
    ensures Cosine(Scale(k, a), b, k * na, nb) == Cosine(a, b, na, nb)
  {
    hide Dot, SumSq, Scale;
    ScaledSums(k, a, b);
    SquareOfProduct(k, na);
    assert k * na >= 0.0;
    assert |Scale(k, a)| == |a| by {
      ScaleLength(k, a);
    }
    if na != 0.0 && nb != 0.0 && a != [] && b != [] {
      Product(k, na);
      Product(na, nb);
      CancelFactor(k, Dot(a, b), na * nb);
      assert k * na * nb == k * (na * nb);
    }
  }

  /** Positive scaling of both vectors, each by its own factor, leaves the score alone. */
  lemma ScoreIgnoresLength(k: real, l: real, a: Vector, b: Vector, na: real, nb: real)
    requires k > 0.0 && l > 0.0 && IsRoot(na, SumSq(a)) && IsRoot(nb, SumSq(b))
    ensures IsRoot(k * na, SumSq(Scale(k, a))) && IsRoot(l * nb, SumSq(Scale(l, b)))
    ensures Cosine(Scale(k, a), Scale(l, b), k * na, l * nb) == Cosine(a, b, na, nb)
  {
    hide Dot, SumSq, Scale, Cosine;
    ScoreIgnoresFirstLength(l, b, a, nb, na);
    ScoreIgnoresFirstLength(k, a, Scale(l, b), na, l * nb);
    ScoreSymmetric(a, Scale(l, b), na, l * nb);
    ScoreSymmetric(b, a, nb, na);
  }

  lemma CancelFactor(k: real, d: real, p: real)
    requires k > 0.0 && p > 0.0
    ensures k * p > 0.0 && (k * d) / (k * p) == d / p
  {
    var q := d / p;
    assert q * p == d;
    assert q * (k * p) == k * d;
  }

  // ---------------------------------------------------------------- fitting to the column width

  function Zeros(n: nat): Vector {
    seq(n, _ => 0.0)
  }

  /** Cut or zero-padded to n components. */
  function FitTo(vec: Vector, n: nat): Vector {
    if |vec| > n then vec[..n] else vec + Zeros(n - |vec|)
  }

  /** The tail of embed_by_model. */
  method Fit(vec: Vector) returns (r: Vector)
    ensures r == FitTo(vec, 1536) && |r| == 1536
    ensures forall i | 0 <= i < 1536 :: r[i] == if i < |vec| then vec[i] else 0.0
  {
    r := vec;
    var target := EMBEDDING_DIM;
    if |r| > target {
      r := r[..target];
    } else if |r| < target {
      r := r + Zeros(target - |r|);
    }
  }

  lemma {:induction false} DotZeros(a: Vector, m: nat)
    ensures Dot(Zeros(m), a) == 0.0 && Dot(a, Zeros(m)) == 0.0 && SumSq(Zeros(m)) == 0.0
    decreases m
  {
    if m == 0 {
    } else {
      assert Zeros(m)[1..] == Zeros(m - 1);
      DotZeros(if a == [] then [] else a[1..], m - 1);
    }
  }

  lemma {:induction false} PaddedSums(a: Vector, b: Vector, m: nat, n: nat)
    ensures Dot(a + Zeros(m), b + Zeros(n)) == Dot(a, b)
    ensures SumSq(a + Zeros(m)) == SumSq(a)
    decreases |a|, |b|
  {
    var pa, pb := a + Zeros(m), b + Zeros(n);
    if a == [] {
      assert pa == Zeros(m);
      DotZeros(pb, m);
    } else {
      assert pa[1..] == a[1..] + Zeros(m);
      if b == [] {
        PaddedSums(a[1..], [], m, n);
        assert pb == Zeros(n);
        DotZeros(pa, n);
      } else {
        assert pb[1..] == b[1..] + Zeros(n);
        PaddedSums(a[1..], b[1..], m, n);
      }
    }
  }

  lemma FittingKeepsSums(a: Vector, b: Vector, n: nat)
    requires |a| <= n && |b| <= n
    ensures Dot(FitTo(a, n), FitTo(b, n)) == Dot(a, b)
    ensures SumSq(FitTo(a, n)) == SumSq(a) && SumSq(FitTo(b, n)) == SumSq(b)
  {
    hide Dot, SumSq, Zeros;
    PaddedSums(a, b, n - |a|, n - |b|);
    PaddedSums(b, a, n - |b|, n - |a|);
  }

  /** Zero-padding vectors that fit changes no score, empty vectors included. */
  lemma PaddingKeepsScore(a: Vector, b: Vector, na: real, nb: real, n: nat)
    requires 0 < n && |a| <= n && |b| <= n
    requires IsRoot(na, SumSq(a)) && IsRoot(nb, SumSq(b))
    ensures IsRoot(na, SumSq(FitTo(a, n))) && IsRoot(nb, SumSq(FitTo(b, n)))
    ensures Cosine(FitTo(a, n), FitTo(b, n), na, nb) == Cosine(a, b, na, nb)
  {
    FittingKeepsSums(a, b, n);
    var nna := Square(na);
    var nnb := Square(nb);
    assert |FitTo(a, n)| == n && |FitTo(b, n)| == n;
  }

  lemma {:induction false} SumSqConcat(a: Vector, b: Vector)
    ensures SumSq(a + b) == SumSq(a) + SumSq(b)
  {
    if a == [] {
      assert a + b == b;
    } else {
      assert (a + b)[1..] == a[1..] + b;
      SumSqConcat(a[1..], b);
    }
  }

  /** Cutting a vector keeps its norm exactly when what is cut off is zero. */
  lemma FittingKeepsNormIff(a: Vector, n: nat)
    ensures SumSq(FitTo(a, n)) == SumSq(a) <==> forall i | n <= i < |a| :: a[i] == 0.0
  {
    hide SumSq, Zeros;
    if |a| > n {
      var kept, cut := a[..n], a[n..];
      assert kept + cut == a;
      SumSqConcat(kept, cut);
      SumSqNonNegative(cut);
      assert forall i | n <= i < |a| :: a[i] == cut[i - n];
      assert forall i | 0 <= i < |cut| :: cut[i] == a[n + i];
    } else {
      PaddedSums(a, [], n - |a|, 0);
    }
  }

  // ---------------------------------------------------------------- the hash fallback

  function Repeat(h: seq<nat>, times: nat): seq<nat> {
    if times == 0 then [] else h + Repeat(h, times - 1)
  }

  /** A digest repeated until it is long enough, then cut. */
  function Cycle(h: seq<nat>, n: nat): seq<nat>
    requires h != []
  {
    var long := Repeat(h, n / |h| + 1);
    if |long| <= n then long else long[..n]
  }

  lemma {:induction false} RepeatLength(h: seq<nat>, times: nat)
    ensures |Repeat(h, times)| == times * |h|
  {
    if times == 0 {
    } else {
      RepeatLength(h, times - 1);
      assert |h| + (times - 1) * |h| == times * |h|;
    }
  }

  lemma {:induction false} RepeatAt(h: seq<nat>, times: nat, i: nat)
    requires h != [] && i < |Repeat(h, times)|
    ensures Repeat(h, times)[i] == h[i % |h|]
  {
    if i < |h| {
      SmallMod(i, |h|);
    } else {
      RepeatAt(h, times - 1, i - |h|);
      ModShift(i, |h|);
    }
  }

  lemma SmallMod(i: nat, m: nat)
    requires i < m
    ensures i % m == i
  {
  }

  lemma AtLeast(k: int, m: nat)
    requires k >= 1
    ensures k * m >= m
  {
  }

  lemma Opposite(k: int, m: nat)
    ensures (-k) * m == -(k * m)
  {
  }

  lemma ModShift(i: nat, m: nat)
    requires 0 < m <= i
    ensures (i - m) % m == i % m
  {
    var k := i / m - (i - m) / m - 1;
    assert k * m == (i - m) % m - i % m by {
      assert i == i / m * m + i % m;
      assert i - m == (i - m) / m * m + (i - m) % m;
    }
    if k >= 1 {
      AtLeast(k, m);
    } else if k <= -1 {
      Opposite(k, m);
      AtLeast(-k, m);
    }
  }

  /** Any non-empty digest fills exactly the wanted width, component i being byte i modulo its length. */
  lemma CycleFills(h: seq<nat>, n: nat)
    requires h != []
    ensures |Cycle(h, n)| == n && forall i | 0 <= i < n :: Cycle(h, n)[i] == h[i % |h|]
  {
    var times := n / |h| + 1;
    RepeatLength(h, times);
    assert times * |h| == n / |h| * |h| + |h|;
    forall i | 0 <= i < n ensures Cycle(h, n)[i] == h[i % |h|] {
      RepeatAt(h, times, i);
    }
  }

  // ---------------------------------------------------------------- the sums, component by component

  lemma {:induction false} DotSnoc(a: Vector, b: Vector, x: real, y: real)
    requires |a| == |b|
    ensures Dot(a + [x], b + [y]) == Dot(a, b) + x * y
  {
    if a == [] {
      assert [x][1..] == [] && [y][1..] == [];
      assert a + [x] == [x] && b + [y] == [y];
    } else {
      assert (a + [x])[1..] == a[1..] + [x] && (b + [y])[1..] == b[1..] + [y];
      DotSnoc(a[1..], b[1..], x, y);
    }
  }

  /** Components past the end of the shorter vector do not matter. */
  lemma {:induction false} DotCutsToShorter(a: Vector, b: Vector, more: Vector)
    requires |a| == |b|
    ensures Dot(a + more, b) == Dot(a, b)
  {
    if a == [] {
    } else {
      assert (a + more)[1..] == a[1..] + more;
      DotCutsToShorter(a[1..], b[1..], more);
    }
  }
}
