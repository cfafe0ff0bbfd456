// When the leave-one-out Mahalanobis model exists: the regularised covariance
// is positive definite exactly when the remaining frames are not all equal.
module CovarianceDefinite {
  import opened LinearAlgebra
  import opened Products
  import opened Mahalanobis

  // ------------------------------------------------ the spread of a list

  function SumSquares(n: nat, f: int -> real): real {
    Sum(n, r => Times(f(r), f(r)))
  }

  function SquaresFrom(n: nat, f: int -> real, c: real): real {
    Sum(n, r => Times(f(r) - c, f(r) - c))
  }

  function MeanOf(n: nat, f: int -> real): real
    requires n > 0
  {
    Over(Sum(n, f), n as real)
  }

  // The mean square minus the squared mean.
  function SpreadOf(n: nat, f: int -> real): real
    requires n > 0
  {
    Over(SumSquares(n, f), n as real) - Times(MeanOf(n, f), MeanOf(n, f))
  }

  // The sum of squares about a centre, from the raw moments.
  function AboutCentre(squares: real, total: real, n: real, c: real): real {
    squares - Times(c, total) - Times(c, total) + Times(Times(c, c), n)
  }

  lemma ExpandSquare(x: real, c: real)
    ensures Times(x - c, x - c) == Times(x, x) - Times(c, x) - Times(c, x) + Times(c, c)
  {
  }

  lemma {:induction false} SquaresAbout(n: nat, f: int -> real, c: real)
    ensures SquaresFrom(n, f, c) == AboutCentre(SumSquares(n, f), Sum(n, f), n as real, c)
    decreases n
  {
    hide Times;
    TimesUnit(c);
    TimesUnit(Times(c, c));
    if n > 0 {
      SquaresAbout(n - 1, f, c);
      ExpandSquare(f(n - 1), c);
      TimesDistributes(c, Sum(n - 1, f), f(n - 1));
      TimesDistributes(Times(c, c), (n - 1) as real, 1.0);
    }
  }

  lemma DeviationsVanish(n: nat, f: int -> real, c: real)
    ensures SquaresFrom(n, f, c) >= 0.0
    ensures SquaresFrom(n, f, c) == 0.0 <==> forall r :: 0 <= r < n ==> f(r) == c
  {
    hide Times;
    var h: int -> real := r => Times(f(r) - c, f(r) - c);
    forall r | 0 <= r < n
      ensures h(r) >= 0.0 && (h(r) == 0.0 <==> f(r) == c)
    {
      SquareSign(f(r) - c);
    }
    SumNonnegative(n, h);
    SumSame(n, h, r => Times(f(r) - c, f(r) - c));
  }

  // About the mean, the deviations are n spreads.
  lemma DeviationsAreSpread(n: nat, f: int -> real)
    requires n > 0
    ensures SquaresFrom(n, f, MeanOf(n, f)) == Times(n as real, SpreadOf(n, f))
  {
    hide Times, Over;
    var k, mean, total, squares := n as real, MeanOf(n, f), Sum(n, f), SumSquares(n, f);
    SquaresAbout(n, f, mean);
    OverScales(total, k);
    OverScales(squares, k);
    TimesRegroups(mean, mean, k);
    TimesDistributes(k, Over(squares, k), Times(mean, mean));
    TimesCommutes(k, Over(squares, k));
    TimesCommutes(k, Times(mean, mean));
  }

  // A spread is never negative, and zero only for a constant list.
  lemma {:induction false} SpreadVanishes(n: nat, f: int -> real)
    requires n > 0
    ensures SpreadOf(n, f) >= 0.0
    ensures SpreadOf(n, f) == 0.0 <==> forall r, s :: 0 <= r < n && 0 <= s < n ==> f(r) == f(s)
  {
    hide Times, Over;
    DeviationsAreSpread(n, f);
    DeviationsVanish(n, f, MeanOf(n, f));
    TimesPositive(n as real, SpreadOf(n, f));
    if forall r, s :: 0 <= r < n && 0 <= s < n ==> f(r) == f(s) {
      SumConstant(n, f, f(0));
      OverScales(Sum(n, f), n as real);
      TimesCommutes(f(0), n as real);
      TimesCommutes(MeanOf(n, f), n as real);
      TimesCancels(n as real, MeanOf(n, f), f(0));
    }
  }

  // -------------------------------------------------- projections of the rows

  // The projection of row r on v.
  function Score(d: nat, xs: seq<Vec>, v: Vec, r: int): real {
    Dot(d, RowAt(xs, r), v)
  }

  function ScoreSquares(d: nat, xs: seq<Vec>, v: Vec): real {
    SumSquares(|xs|, r => Score(d, xs, v, r))
  }

  // A total spelt with another name for the same term.
  lemma TotalIs(xs: seq<Vec>, g: Vec -> real, h: int -> real)
    requires forall r :: 0 <= r < |xs| ==> h(r) == g(RowAt(xs, r))
    ensures Total(xs, g) == Sum(|xs|, h)
  {
    SumSame(|xs|, h, r => g(RowAt(xs, r)));
  }

  // A column of the table of products, weighted by w.
  lemma WeightedColumn(xs: seq<Vec>, g: Vec -> real, w: real, f: (int, int) -> real, k: int)
    requires forall r :: 0 <= r < |xs| ==> f(r, k) == Times(w, g(RowAt(xs, r)))
    ensures ColumnSum(|xs|, f, k) == Times(w, Total(xs, g))
  {
    hide Times;
    SumScale(|xs|, w, r => g(RowAt(xs, r)), r => f(r, k));
  }

  // The mean of the scores is the score of the mean.
  lemma {:induction false} MeanScore(d: nat, xs: seq<Vec>, v: Vec, score: int -> real)
    requires xs != [] && forall r :: score(r) == Score(d, xs, v, r)
    ensures MeanOf(|xs|, score) == Dot(d, Mean(xs, d), v)
  {
    hide Times, Over;
    var f: (int, int) -> real := (r, i) => Times(At(RowAt(xs, r), i), At(v, i));
    var cols: int -> real := i => Times(At(v, i), ColumnTotal(xs, i));
    var means: int -> real := i => Times(At(Mean(xs, d), i), At(v, i));
    var w := Over(1.0, |xs| as real);
    forall r | 0 <= r < |xs|
      ensures score(r) == RowSum(d, f, r)
    {
      SumSame(d, i => Times(At(RowAt(xs, r), i), At(v, i)), i => f(r, i));
    }
    forall i | 0 <= i < d
      ensures cols(i) == ColumnSum(|xs|, f, i)
    {
      forall r | 0 <= r < |xs|
        ensures f(r, i) == Times(At(v, i), At(RowAt(xs, r), i))
      {
        TimesCommutes(At(RowAt(xs, r), i), At(v, i));
      }
      WeightedColumn(xs, x => At(x, i), At(v, i), f, i);
    }
    SumSwap(|xs|, d, f, score, cols);
    forall i | 0 <= i < d
      ensures means(i) == Times(w, cols(i))
    {
      OverScales(ColumnTotal(xs, i), |xs| as real);
      TimesCommutes(Times(w, ColumnTotal(xs, i)), At(v, i));
      TimesRegroups(At(v, i), w, ColumnTotal(xs, i));
    }
    SumScale(d, w, cols, means);
    SumSame(d, means, i => Times(At(Mean(xs, d), i), At(v, i)));
    OverScales(Sum(|xs|, score), |xs| as real);
  }

  function GramRow(d: nat, xs: seq<Vec>, v: Vec, i: int): real {
    Sum(d, k => Times(GramTotal(xs, i, k), At(v, k)))
  }

  // Row i of the Gram matrix against v: the scores weighted by column i.
  lemma {:induction false} GramTimes(d: nat, xs: seq<Vec>, v: Vec, i: int, rows: int -> real)
    requires forall r :: rows(r) == Times(At(RowAt(xs, r), i), Score(d, xs, v, r))
    ensures GramRow(d, xs, v, i) == Sum(|xs|, rows)
  {
    hide Times;
    var f: (int, int) -> real := (r, k) => Times(At(RowAt(xs, r), i), Times(At(RowAt(xs, r), k), At(v, k)));
    var cols: int -> real := k => Times(GramTotal(xs, i, k), At(v, k));
    forall r | 0 <= r < |xs|
      ensures rows(r) == RowSum(d, f, r)
    {
      RowOfTriples(d, f, r, At(RowAt(xs, r), i), k => Times(At(RowAt(xs, r), k), At(v, k)));
    }
    forall k | 0 <= k < d
      ensures cols(k) == ColumnSum(|xs|, f, k)
    {
      forall r | 0 <= r < |xs|
        ensures f(r, k) == Times(At(v, k), Times(At(RowAt(xs, r), i), At(RowAt(xs, r), k)))
      {
        TimesRegroups(At(RowAt(xs, r), i), At(RowAt(xs, r), k), At(v, k));
      }
      WeightedColumn(xs, x => Times(At(x, i), At(x, k)), At(v, k), f, k);
      TimesCommutes(At(v, k), GramTotal(xs, i, k));
    }
    SumSwap(|xs|, d, f, rows, cols);
    SumSame(d, cols, k => Times(GramTotal(xs, i, k), At(v, k)));
  }

  // v against the Gram matrix against v: the sum of squared scores.
  lemma {:induction false} GramQuadratic(d: nat, xs: seq<Vec>, v: Vec, cols: int -> real)
    requires forall i :: cols(i) == Times(At(v, i), GramRow(d, xs, v, i))
    ensures Sum(d, cols) == ScoreSquares(d, xs, v)
  {
    hide Times;
    var f: (int, int) -> real := (r, i) => Times(At(v, i), Times(At(RowAt(xs, r), i), Score(d, xs, v, r)));
    var score: int -> real := r => Score(d, xs, v, r);
    var rows: int -> real := r => Times(score(r), score(r));
    forall r | 0 <= r < |xs|
      ensures rows(r) == RowSum(d, f, r)
    {
      forall i | 0 <= i < d
        ensures f(r, i) == Times(score(r), Times(At(RowAt(xs, r), i), At(v, i)))
      {
        TimesRegroups(At(v, i), At(RowAt(xs, r), i), score(r));
        TimesCommutes(At(v, i), At(RowAt(xs, r), i));
      }
      RowOfTriples(d, f, r, score(r), i => Times(At(RowAt(xs, r), i), At(v, i)));
    }
    forall i | 0 <= i < d
      ensures cols(i) == ColumnSum(|xs|, f, i)
    {
      var g: int -> real := r => Times(At(RowAt(xs, r), i), Score(d, xs, v, r));
      GramTimes(d, xs, v, i, g);
      SumScale(|xs|, At(v, i), g, r => f(r, i));
    }
    SumSwap(|xs|, d, f, rows, cols);
    SumSame(|xs|, rows, r => Times(score(r), score(r)));
  }

  // ------------------------------------------------------ the quadratic form

  function Quadratic(d: nat, c: Mat, v: Vec): real {
    Dot(d, v, MatVec(d, c, v))
  }

  function Ridge(xs: seq<Vec>, d: nat): real
    requires xs != [] && d > 0
  {
    Times(RIDGE_RELATIVE, Over(Trace(Gram(xs, d), Mean(xs, d), |xs| as real, d), d as real))
  }

  lemma CovarianceEntry(d: nat, xs: seq<Vec>, i: nat, k: nat)
    requires xs != [] && i < d && k < d
    ensures Entry(Covariance(xs, d), i, k)
         == Over(GramTotal(xs, i, k), |xs| as real) - Times(At(Mean(xs, d), i), At(Mean(xs, d), k))
            + (if i == k then Ridge(xs, d) else 0.0)
  {
    hide Times, Over;
    assert Entry(Gram(xs, d), i, k) == GramTotal(xs, i, k);
  }

  // Row i of the regularised covariance against v.
  lemma {:induction false} CovarianceTimes(d: nat, xs: seq<Vec>, v: Vec, i: nat)
    requires xs != [] && i < d
    ensures RowTimes(d, Covariance(xs, d), v, i)
         == Blend(Over(1.0, |xs| as real), GramRow(d, xs, v, i), -At(Mean(xs, d), i), Dot(d, Mean(xs, d), v),
                  Times(Ridge(xs, d), At(v, i)))
  {
    hide Times, Over, Ridge, Covariance, Mean;
    var w, m, ridge := Over(1.0, |xs| as real), Mean(xs, d), Ridge(xs, d);
    var gram: int -> real := k => Times(GramTotal(xs, i, k), At(v, k));
    var mean: int -> real := k => Times(At(m, k), At(v, k));
    var diagonal: int -> real := k => if k == i then Times(ridge, At(v, i)) else 0.0;
    var all: int -> real := k => Times(Entry(Covariance(xs, d), i, k), At(v, k));
    forall k | 0 <= k < d
      ensures all(k) == Blend(w, gram(k), -At(m, i), mean(k), diagonal(k))
    {
      CovarianceEntry(d, xs, i, k);
      OneTerm(GramTotal(xs, i, k), |xs| as real, At(m, i), At(m, k), if i == k then ridge else 0.0, At(v, k));
      TimesUnit(At(v, k));
    }
    SumOnly(d, i, diagonal);
    SumSame(d, gram, k => Times(GramTotal(xs, i, k), At(v, k)));
    SumSame(d, mean, k => Times(At(m, k), At(v, k)));
    SumBlend(d, w, gram, GramRow(d, xs, v, i), -At(m, i), mean, Dot(d, m, v), diagonal, Times(ridge, At(v, i)), all);
    SumSame(d, all, k => Times(Entry(Covariance(xs, d), i, k), At(v, k)));
  }

  lemma OneTerm(gram: real, n: real, mi: real, mk: real, ridge: real, v: real)
    requires n > 0.0
    ensures Times(Over(gram, n) - Times(mi, mk) + ridge, v)
         == Blend(Over(1.0, n), Times(gram, v), -mi, Times(mk, v), Times(ridge, v))
  {
    hide Times, Over;
    var g, p := Over(gram, n), Times(mi, mk);
    TimesCommutes(g - p + ridge, v);
    TimesDistributes(v, g - p, ridge);
    TimesDistributes(v, g, p);
    TimesCommutes(v, ridge);
    OverScales(gram, n);
    TimesRegroups(v, Over(1.0, n), gram);
    TimesCommutes(v, gram);
    TimesRegroups(v, mi, mk);
    TimesCommutes(v, mk);
    TimesCommutes(mi, Times(mk, v));
    TimesCommutes(-mi, Times(mk, v));
    TimesDistributes(Times(mk, v), 0.0, mi);
  }

  lemma {:induction false} QuadraticIsBlend(d: nat, xs: seq<Vec>, v: Vec)
    requires xs != [] && d > 0 && |v| == d
    ensures Quadratic(d, Covariance(xs, d), v)
         == Blend(Over(1.0, |xs| as real), ScoreSquares(d, xs, v), -Dot(d, Mean(xs, d), v), Dot(d, Mean(xs, d), v),
                  Times(Ridge(xs, d), Norm2(d, v)))
  {
    hide Times, Over, Ridge, Covariance, Mean, GramRow, ScoreSquares;
    var w, m, ridge := Over(1.0, |xs| as real), Mean(xs, d), Ridge(xs, d);
    var sigma := Dot(d, m, v);
    var gram: int -> real := i => Times(At(v, i), GramRow(d, xs, v, i));
    var mean: int -> real := i => Times(At(m, i), At(v, i));
    var square: int -> real := i => Times(At(v, i), At(v, i));
    var scaled: int -> real := i => Times(ridge, square(i));
    var all: int -> real := i => Times(At(v, i), At(MatVec(d, Covariance(xs, d), v), i));
    forall i | 0 <= i < d
      ensures all(i) == Blend(w, gram(i), -sigma, mean(i), scaled(i))
    {
      CovarianceTimes(d, xs, v, i);
      SpreadTerm(At(v, i), w, GramRow(d, xs, v, i), At(m, i), sigma, ridge);
    }
    GramQuadratic(d, xs, v, gram);
    SumSame(d, mean, i => Times(At(m, i), At(v, i)));
    SumScale(d, ridge, square, scaled);
    SumSame(d, square, i => Times(At(v, i), At(v, i)));
    SumBlend(d, w, gram, ScoreSquares(d, xs, v), -sigma, mean, sigma, scaled, Times(ridge, Norm2(d, v)), all);
    SumSame(d, all, i => Times(At(v, i), At(MatVec(d, Covariance(xs, d), v), i)));
  }

  // The quadratic form of the regularised covariance: the spread of the scores
  // plus the ridge's share.
  lemma {:induction false} QuadraticIsSpread(d: nat, xs: seq<Vec>, v: Vec, score: int -> real)
    requires xs != [] && d > 0 && |v| == d && forall r :: score(r) == Score(d, xs, v, r)
    ensures Quadratic(d, Covariance(xs, d), v) == SpreadOf(|xs|, score) + Times(Ridge(xs, d), Norm2(d, v))
  {
    hide Times, Over, Ridge, Covariance, Mean, Norm2, Quadratic, ScoreSquares, SumSquares;
    var sigma := Dot(d, Mean(xs, d), v);
    QuadraticIsBlend(d, xs, v);
    MeanScore(d, xs, v, score);
    ScoreSquaresAre(d, xs, v, score);
    OverScales(ScoreSquares(d, xs, v), |xs| as real);
    TimesCommutes(-sigma, sigma);
    TimesDistributes(sigma, 0.0, sigma);
  }

  lemma ScoreSquaresAre(d: nat, xs: seq<Vec>, v: Vec, score: int -> real)
    requires forall r :: score(r) == Score(d, xs, v, r)
    ensures ScoreSquares(d, xs, v) == SumSquares(|xs|, score)
  {
    hide Times;
    var f: int -> real := r => Score(d, xs, v, r);
    SumSame(|xs|, r => Times(f(r), f(r)), r => Times(score(r), score(r)));
  }

  lemma SpreadTerm(v: real, w: real, gram: real, m: real, sigma: real, ridge: real)
    ensures Times(v, Blend(w, gram, -m, sigma, Times(ridge, v)))
         == Blend(w, Times(v, gram), -sigma, Times(m, v), Times(ridge, Times(v, v)))
  {
    hide Times;
    TimesDistributes(v, Times(w, gram) + Times(-m, sigma), Times(ridge, v));
    TimesDistributes(v, Times(w, gram), Times(-m, sigma));
    TimesRegroups(v, w, gram);
    TimesRegroups(v, -m, sigma);
    TimesRegroups(v, ridge, v);
    TimesCommutes(v, -m);
    TimesCommutes(-m, v);
    TimesDistributes(v, 0.0, m);
    TimesCommutes(v, m);
    TimesCommutes(Times(v, -m), sigma);
    TimesDistributes(sigma, 0.0, Times(m, v));
    TimesCommutes(-sigma, Times(m, v));
    TimesDistributes(Times(m, v), 0.0, sigma);
    TimesCommutes(sigma, Times(m, v));
  }

  // ------------------------------------------------------------ definiteness

  ghost predicate PositiveDefinite(d: nat, c: Mat) {
    forall v: Vec :: |v| == d && (exists i :: 0 <= i < d && v[i] != 0.0) ==> Quadratic(d, c, v) > 0.0
  }

  ghost predicate ColumnEqual(xs: seq<Vec>, j: nat) {
    forall r, s :: 0 <= r < |xs| && 0 <= s < |xs| ==> At(xs[r], j) == At(xs[s], j)
  }

  // Every coordinate is the same in all rows.
  ghost predicate AllEqual(xs: seq<Vec>, d: nat) {
    forall j: nat :: j < d ==> ColumnEqual(xs, j)
  }

  // One diagonal entry before the ridge.
  function Variance(xs: seq<Vec>, d: nat, j: int): real
    requires xs != []
  {
    Over(GramTotal(xs, j, j), |xs| as real) - Times(At(Mean(xs, d), j), At(Mean(xs, d), j))
  }

  // It is the spread of its column.
  lemma {:induction false} VarianceSign(xs: seq<Vec>, d: nat, j: nat)
    requires xs != [] && j < d
    ensures Variance(xs, d, j) >= 0.0
    ensures Variance(xs, d, j) == 0.0 <==> ColumnEqual(xs, j)
  {
    hide Times, Over;
    var column: int -> real := r => At(RowAt(xs, r), j);
    TotalIs(xs, x => At(x, j), column);
    TotalIs(xs, x => Times(At(x, j), At(x, j)), r => Times(column(r), column(r)));
    assert Variance(xs, d, j) == SpreadOf(|xs|, column);
    SpreadVanishes(|xs|, column);
    forall r, s | 0 <= r < |xs| && 0 <= s < |xs|
      ensures At(xs[r], j) == At(xs[s], j) <==> column(r) == column(s)
    {
    }
  }

  lemma {:induction false} RidgeSign(xs: seq<Vec>, d: nat)
    requires xs != [] && d > 0
    ensures AllEqual(xs, d) ==> Ridge(xs, d) == 0.0
    ensures !AllEqual(xs, d) ==> Ridge(xs, d) > 0.0
  {
    hide Times, Over, Variance;
    var variance: int -> real := j => Variance(xs, d, j);
    forall j: nat | j < d
      ensures variance(j) >= 0.0
      ensures variance(j) == 0.0 <==> ColumnEqual(xs, j)
    {
      VarianceSign(xs, d, j);
    }
    SumNonnegative(d, variance);
    TraceIsVariance(xs, d, variance);
    var trace := Trace(Gram(xs, d), Mean(xs, d), |xs| as real, d);
    OverSign(trace, d as real);
    TimesPositive(RIDGE_RELATIVE, Over(trace, d as real));
  }

  lemma TraceIsVariance(xs: seq<Vec>, d: nat, variance: int -> real)
    requires xs != [] && d > 0 && forall j :: 0 <= j < d ==> variance(j) == Variance(xs, d, j)
    ensures Trace(Gram(xs, d), Mean(xs, d), |xs| as real, d) == Sum(d, variance)
  {
    hide Times, Over;
    var gram, mean, n := Gram(xs, d), Mean(xs, d), |xs| as real;
    SumSame(d, variance, j => Over(Entry(gram, j, j), n) - Times(At(mean, j), At(mean, j)));
  }

  lemma {:induction false} NormPositive(d: nat, v: Vec, i: nat)
    requires |v| == d && i < d && v[i] != 0.0
    ensures Norm2(d, v) > 0.0
  {
    hide Times;
    var square: int -> real := k => Times(At(v, k), At(v, k));
    forall k | 0 <= k < d
      ensures square(k) >= 0.0
    {
      SquareSign(At(v, k));
    }
    SquareSign(v[i]);
    assert square(i) > 0.0;
    SumNonnegative(d, square);
    SumSame(d, square, k => Times(At(v, k), At(v, k)));
  }

  lemma EqualScores(d: nat, xs: seq<Vec>, v: Vec, score: int -> real)
    requires AllEqual(xs, d) && forall r :: score(r) == Score(d, xs, v, r)
    ensures forall r, s :: 0 <= r < |xs| && 0 <= s < |xs| ==> score(r) == score(s)
  {
    hide Times;
    forall r, s | 0 <= r < |xs| && 0 <= s < |xs|
      ensures score(r) == score(s)
    {
      forall i | 0 <= i < d
        ensures At(RowAt(xs, r), i) == At(RowAt(xs, s), i)
      {
        assert ColumnEqual(xs, i);
      }
      SumSame(d, i => Times(At(RowAt(xs, r), i), At(v, i)), i => Times(At(RowAt(xs, s), i), At(v, i)));
    }
  }

  // The remaining frames have a positive definite covariance, which is what a
  // Cholesky factor needs, exactly when they are not all the same frame.
  lemma {:induction false} DefiniteUnlessConstant(d: nat, xs: seq<Vec>)
    requires xs != [] && d > 0
    ensures PositiveDefinite(d, Covariance(xs, d)) <==> !AllEqual(xs, d)
  {
    hide Times, Over, Covariance, Ridge, Norm2, Quadratic, AllEqual;
    RidgeSign(xs, d);
    if AllEqual(xs, d) {
      var unit: Vec := seq(d, k => 1.0);
      assert unit[0] != 0.0;
      var score: int -> real := r => Score(d, xs, unit, r);
      EqualScores(d, xs, unit, score);
      SpreadVanishes(|xs|, score);
      QuadraticIsSpread(d, xs, unit, score);
      TimesUnit(Norm2(d, unit));
      assert Quadratic(d, Covariance(xs, d), unit) == 0.0;
    } else {
      forall v: Vec | |v| == d && (exists i :: 0 <= i < d && v[i] != 0.0)
        ensures Quadratic(d, Covariance(xs, d), v) > 0.0
      {
        var i :| 0 <= i < d && v[i] != 0.0;
        var score: int -> real := r => Score(d, xs, v, r);
        NormPositive(d, v, i);
        SpreadVanishes(|xs|, score);
        QuadraticIsSpread(d, xs, v, score);
        TimesPositive(Ridge(xs, d), Norm2(d, v));
      }
    }
  }

  // ------------------------------------------------------------ factorisation

  // v . (C v) is |L^T v|^2.
  lemma {:induction false} QuadraticOfFactor(d: nat, c: Mat, l: Mat, v: Vec)
    requires IsCholesky(d, c, l) && |v| == d
    ensures Quadratic(d, c, v) == Norm2(d, VecMat(d, v, l))
  {
    hide Times;
    var y := VecMat(d, v, l);
    forall i | 0 <= i < d
      ensures At(MatVec(d, l, y), i) == At(MatVec(d, c, v), i)
    {
      FactorTwice(d, c, l, v, i);
    }
    Adjoint(d, l, y, v);
    var f: int -> real := i => Times(At(MatVec(d, l, y), i), At(v, i));
    var g: int -> real := i => Times(At(v, i), At(MatVec(d, c, v), i));
    forall i | 0 <= i < d
      ensures f(i) == g(i)
    {
      TimesCommutes(At(v, i), At(MatVec(d, c, v), i));
    }
    SumSame(d, f, g);
    SumSame(d, f, i => Times(At(MatVec(d, l, y), i), At(v, i)));
    SumSame(d, g, i => Times(At(v, i), At(MatVec(d, c, v), i)));
  }

  // Only a positive definite matrix has a Cholesky factor.
  lemma {:induction false} FactoredIsDefinite(d: nat, c: Mat, l: Mat)
    requires IsCholesky(d, c, l)
    ensures PositiveDefinite(d, c)
  {
    hide Times, IsCholesky, Quadratic, Norm2;
    forall v: Vec | |v| == d && (exists i :: 0 <= i < d && v[i] != 0.0)
      ensures Quadratic(d, c, v) > 0.0
    {
      var i :| 0 <= i < d && v[i] != 0.0;
      var y := VecMat(d, v, l);
      QuadraticOfFactor(d, c, l, v);
      if forall j :: 0 <= j < d ==> y[j] == 0.0 {
        assert forall j :: 0 <= j < d ==> TimesColumn(d, v, l, j) == y[j];
        TransposeTakesOnlyZero(d, c, l, v, i);
      } else {
        var j :| 0 <= j < d && y[j] != 0.0;
        NormPositive(d, y, j);
      }
    }
  }

  ghost predicate Symmetric(d: nat, c: Mat) {
    forall i, k :: 0 <= i < d && 0 <= k < d ==> Entry(c, i, k) == Entry(c, k, i)
  }

  lemma CovarianceSymmetric(d: nat, xs: seq<Vec>)
    requires xs != [] && d > 0
    ensures Symmetric(d, Covariance(xs, d))
  {
    hide Times, Over, Covariance;
    forall i, k | 0 <= i < d && 0 <= k < d
      ensures Entry(Covariance(xs, d), i, k) == Entry(Covariance(xs, d), k, i)
    {
      CovarianceEntry(d, xs, i, k);
      CovarianceEntry(d, xs, k, i);
      GramSymmetric(xs, i, k);
      TimesCommutes(At(Mean(xs, d), i), At(Mean(xs, d), k));
    }
  }

  lemma GramSymmetric(xs: seq<Vec>, i: int, k: int)
    ensures GramTotal(xs, i, k) == GramTotal(xs, k, i)
  {
    hide Times;
    var f: int -> real := r => Times(At(RowAt(xs, r), i), At(RowAt(xs, r), k));
    var g: int -> real := r => Times(At(RowAt(xs, r), k), At(RowAt(xs, r), i));
    forall r
      ensures f(r) == g(r)
    {
      TimesCommutes(At(RowAt(xs, r), i), At(RowAt(xs, r), k));
    }
    SumSame(|xs|, f, g);
    TotalIs(xs, x => Times(At(x, i), At(x, k)), f);
    TotalIs(xs, x => Times(At(x, k), At(x, i)), g);
  }

  // A witness: a single remaining frame has no factor.
  lemma OneFrameIsSingular(xs: seq<Vec>, d: nat, l: Mat)
    requires |xs| == 1 && d > 0
    ensures !IsCholesky(d, Covariance(xs, d), l)
  {
    hide Covariance, PositiveDefinite;
    DefiniteUnlessConstant(d, xs);
    if IsCholesky(d, Covariance(xs, d), l) {
      FactoredIsDefinite(d, Covariance(xs, d), l);
    }
  }
}
