// The leave-one-out Mahalanobis distance in the terms of its definition: centred
// columns, cross-products about the mean, and one triangular system.
module HeldOutDistance {
  import opened Outcome
  import opened LinearAlgebra
  import opened Products
  import opened Sequences
  import opened Mahalanobis
  import opened CovarianceDefinite
  import opened LeaveOneOutMahalanobis

  // ------------------------------------------------------- the remaining rows

  // The frames of the other episodes, by index.
  ghost predicate Others(labels: seq<int>, episode: int, listed: seq<int>) {
    && Ascending(listed)
    && (forall k :: k in listed <==> 0 <= k < |labels| && labels[k] != episode)
  }

  ghost predicate RowsAt(xs: seq<Vec>, listed: seq<int>, rows: seq<Vec>) {
    && |rows| == |listed|
    && (forall p :: 0 <= p < |listed| ==> 0 <= listed[p] < |xs| && rows[p] == xs[listed[p]])
  }

  lemma {:induction false} RemainingAreOthers(xs: seq<Vec>, labels: seq<int>, episode: int) returns (listed: seq<int>)
    requires |xs| == |labels|
    ensures Others(labels, episode, listed) && RowsAt(xs, listed, Remaining(xs, labels, episode))
  {
    if xs == [] {
      return [];
    }
    var n := |xs| - 1;
    var front := RemainingAreOthers(xs[..n], labels[..n], episode);
    listed := if labels[n] == episode then front else front + [n];
    OneMoreListed(labels, episode, front);
    var rows := Remaining(xs[..n], labels[..n], episode);
    hide Others, Remaining;
    assert RowsAt(xs, front, rows);
    assert labels[n] != episode ==> RowsAt(xs, front + [n], rows + [xs[n]]);
  }

  lemma OneMoreListed(labels: seq<int>, episode: int, front: seq<int>)
    requires labels != [] && Others(labels[..|labels| - 1], episode, front)
    ensures var n := |labels| - 1;
            Others(labels, episode, if labels[n] == episode then front else front + [n])
  {
    var n := |labels| - 1;
    forall k | k in front
      ensures 0 <= k < n && labels[k] != episode
    {
      assert labels[..n][k] == labels[k];
    }
    forall k | 0 <= k < n && labels[k] != episode
      ensures k in front
    {
      assert labels[..n][k] == labels[k];
    }
    assert forall k :: k in front + [n] <==> k in front || k == n;
    assert Ascending(front + [n]) by {
      assert forall p :: 0 <= p < |front| ==> front[p] in front;
    }
  }

  // ------------------------------------------------------------------ moments

  function Column(xs: seq<Vec>, j: int): int -> real {
    r => At(RowAt(xs, r), j)
  }

  // Deviations from the mean add up to nothing in every column.
  ghost predicate IsMean(xs: seq<Vec>, d: nat, mean: Vec) {
    && |mean| == d
    && (forall j :: 0 <= j < d ==> Sum(|xs|, r => At(RowAt(xs, r), j) - mean[j]) == 0.0)
  }

  // The cross-products of two columns about a centre.
  function Scatter(xs: seq<Vec>, centre: Vec, j: int, k: int): real {
    Sum(|xs|, r => Times(At(RowAt(xs, r), j) - At(centre, j), At(RowAt(xs, r), k) - At(centre, k)))
  }

  // The average cross-products, with a millionth of the average variance added
  // on the diagonal.
  ghost predicate IsRidged(xs: seq<Vec>, d: nat, mean: Vec, c: Mat)
    requires d > 0
  {
    && Square(c, d)
    && forall j, k :: 0 <= j < d && 0 <= k < d ==>
         Times(|xs| as real, Entry(c, j, k))
         == Scatter(xs, mean, j, k)
            + (if j == k then Times(0.000001, Over(Sum(d, i => Scatter(xs, mean, i, i)), d as real)) else 0.0)
  }

  lemma {:induction false} SumShift(n: nat, f: int -> real, c: real, h: int -> real)
    requires forall r :: 0 <= r < n ==> h(r) == f(r) - c
    ensures Sum(n, h) == Sum(n, f) - Times(c, n as real)
    decreases n
  {
    hide Times;
    TimesUnit(c);
    if n > 0 {
      SumShift(n - 1, f, c, h);
      TimesDistributes(c, (n - 1) as real, 1.0);
    }
  }

  lemma {:induction false} MeanBalances(xs: seq<Vec>, d: nat)
    requires xs != []
    ensures IsMean(xs, d, Mean(xs, d))
  {
    hide Times, Over;
    var mean, n := Mean(xs, d), |xs| as real;
    forall j | 0 <= j < d
      ensures Sum(|xs|, r => At(RowAt(xs, r), j) - mean[j]) == 0.0
    {
      TotalIs(xs, x => At(x, j), Column(xs, j));
      SumShift(|xs|, Column(xs, j), mean[j], r => At(RowAt(xs, r), j) - mean[j]);
      OverScales(ColumnTotal(xs, j), n);
    }
  }

  // Only one centre balances the columns.
  lemma {:induction false} MeanUnique(xs: seq<Vec>, d: nat, a: Vec, b: Vec)
    requires xs != [] && IsMean(xs, d, a) && IsMean(xs, d, b)
    ensures a == b
  {
    hide Times;
    var n := |xs| as real;
    forall j | 0 <= j < d
      ensures a[j] == b[j]
    {
      SumShift(|xs|, Column(xs, j), a[j], r => At(RowAt(xs, r), j) - a[j]);
      SumShift(|xs|, Column(xs, j), b[j], r => At(RowAt(xs, r), j) - b[j]);
      TimesCommutes(a[j], n);
      TimesCommutes(b[j], n);
      TimesCancels(n, a[j], b[j]);
    }
  }

  // Cross-products about a centre, from the raw moments.
  function CrossAbout(cross: real, f: real, g: real, n: real, a: real, b: real): real {
    cross - Times(a, g) - Times(b, f) + Times(Times(a, b), n)
  }

  lemma ExpandCross(x: real, y: real, a: real, b: real)
    ensures Times(x - a, y - b) == Times(x, y) - Times(a, y) - Times(b, x) + Times(a, b)
  {
  }

  lemma {:induction false} CrossOfSums(n: nat, f: int -> real, g: int -> real, a: real, b: real,
                                       cross: int -> real, about: int -> real)
    requires forall r :: 0 <= r < n ==> cross(r) == Times(f(r), g(r)) && about(r) == Times(f(r) - a, g(r) - b)
    ensures Sum(n, about) == CrossAbout(Sum(n, cross), Sum(n, f), Sum(n, g), n as real, a, b)
    decreases n
  {
    hide Times;
    TimesUnit(a);
    TimesUnit(b);
    TimesUnit(Times(a, b));
    if n > 0 {
      CrossOfSums(n - 1, f, g, a, b, cross, about);
      ExpandCross(f(n - 1), g(n - 1), a, b);
      TimesDistributes(a, Sum(n - 1, g), g(n - 1));
      TimesDistributes(b, Sum(n - 1, f), f(n - 1));
      TimesDistributes(Times(a, b), (n - 1) as real, 1.0);
    }
  }

  // With both centres the means, n covariances.
  lemma CrossAtMeans(cross: real, f: real, g: real, n: real, a: real, b: real)
    requires n > 0.0 && Times(a, n) == f && Times(b, n) == g
    ensures CrossAbout(cross, f, g, n, a, b) == Times(n, Over(cross, n) - Times(a, b))
  {
    hide Times, Over;
    OverScales(cross, n);
    TimesDistributes(n, Over(cross, n), Times(a, b));
    TimesCommutes(n, Over(cross, n));
    TimesCommutes(n, Times(a, b));
    TimesRegroups(a, b, n);
    TimesRegroups(b, a, n);
    TimesCommutes(a, b);
  }

  lemma ScatterIs(xs: seq<Vec>, d: nat, j: nat, k: nat)
    requires xs != [] && j < d && k < d
    ensures var mean := Mean(xs, d);
            Scatter(xs, mean, j, k)
            == Times(|xs| as real, Over(GramTotal(xs, j, k), |xs| as real) - Times(At(mean, j), At(mean, k)))
  {
    hide Times, Over;
    var mean, n := Mean(xs, d), |xs| as real;
    var cross: int -> real := r => Times(At(RowAt(xs, r), j), At(RowAt(xs, r), k));
    CrossOfSums(|xs|, Column(xs, j), Column(xs, k), At(mean, j), At(mean, k), cross,
                r => Times(At(RowAt(xs, r), j) - At(mean, j), At(RowAt(xs, r), k) - At(mean, k)));
    TotalIs(xs, x => Times(At(x, j), At(x, k)), cross);
    TotalIs(xs, x => At(x, j), Column(xs, j));
    TotalIs(xs, x => At(x, k), Column(xs, k));
    OverScales(ColumnTotal(xs, j), n);
    OverScales(ColumnTotal(xs, k), n);
    CrossAtMeans(GramTotal(xs, j, k), ColumnTotal(xs, j), ColumnTotal(xs, k), n, At(mean, j), At(mean, k));
  }

  lemma TraceIs(xs: seq<Vec>, d: nat)
    requires xs != [] && d > 0
    ensures var mean := Mean(xs, d);
            Sum(d, i => Scatter(xs, mean, i, i)) == Times(|xs| as real, Trace(Gram(xs, d), mean, |xs| as real, d))
  {
    hide Times, Over, Scatter;
    var gram, mean, n := Gram(xs, d), Mean(xs, d), |xs| as real;
    var scatter: int -> real := i => Scatter(xs, mean, i, i);
    var variance: int -> real := i => Over(Entry(gram, i, i), n) - Times(At(mean, i), At(mean, i));
    forall i | 0 <= i < d
      ensures scatter(i) == Times(n, variance(i))
    {
      ScatterIs(xs, d, i, i);
      assert Entry(gram, i, i) == GramTotal(xs, i, i);
    }
    SumScale(d, n, variance, scatter);
    SumSame(d, scatter, i => Scatter(xs, mean, i, i));
    SumSame(d, variance, j => Over(Entry(gram, j, j), n) - Times(At(mean, j), At(mean, j)));
  }

  lemma {:induction false} CovarianceIsRidged(xs: seq<Vec>, d: nat)
    requires xs != [] && d > 0
    ensures IsRidged(xs, d, Mean(xs, d), Covariance(xs, d))
  {
    assert Square(Covariance(xs, d), d);
    hide Times, Over, Scatter, Covariance, Mean, Square;
    forall j, k | 0 <= j < d && 0 <= k < d
      ensures Times(|xs| as real, Entry(Covariance(xs, d), j, k))
              == Scatter(xs, Mean(xs, d), j, k)
                 + (if j == k then Times(0.000001, Over(Sum(d, i => Scatter(xs, Mean(xs, d), i, i)), d as real))
                    else 0.0)
    {
      RidgedEntry(xs, d, j, k);
    }
  }

  lemma RidgedEntry(xs: seq<Vec>, d: nat, j: nat, k: nat)
    requires xs != [] && j < d && k < d
    ensures Times(|xs| as real, Entry(Covariance(xs, d), j, k))
         == Scatter(xs, Mean(xs, d), j, k)
            + (if j == k then Times(0.000001, Over(Sum(d, i => Scatter(xs, Mean(xs, d), i, i)), d as real)) else 0.0)
  {
    hide Times, Over, Scatter, Covariance, Mean, Trace, Entry, At, GramTotal, Gram, Sum;
    var n, mean := |xs| as real, Mean(xs, d);
    var raw := Over(GramTotal(xs, j, k), n) - Times(At(mean, j), At(mean, k));
    CovarianceEntry(d, xs, j, k);
    ScatterIs(xs, d, j, k);
    if j == k {
      TraceIs(xs, d);
      RidgeScales(Trace(Gram(xs, d), mean, n, d), n, d as real);
      TimesDistributes(n, raw, Ridge(xs, d));
    }
  }

  lemma RidgeScales(trace: real, n: real, d: real)
    requires d > 0.0
    ensures Times(n, Times(RIDGE_RELATIVE, Over(trace, d))) == Times(0.000001, Over(Times(n, trace), d))
  {
    hide Times, Over;
    OverScales(trace, d);
    OverScales(Times(n, trace), d);
    TimesRegroups(n, RIDGE_RELATIVE, Over(trace, d));
    TimesRegroups(Over(1.0, d), n, trace);
    TimesRegroups(RIDGE_RELATIVE, n, Over(trace, d));
    TimesRegroups(n, Over(1.0, d), trace);
  }

  // -------------------------------------------------------------- the distance

  ghost predicate IsLower(d: nat, l: Mat) {
    && Square(l, d)
    && (forall i, j :: 0 <= i < j < d ==> Entry(l, i, j) == 0.0)
    && (forall i :: 0 <= i < d ==> Entry(l, i, i) > 0.0)
  }

  // What `solve` promises on the triangular systems it is given.
  ghost predicate Solves(solve: Solver, d: nat) {
    forall l, b :: IsLower(d, l) && |b| == d ==> Solution(d, l, solve(l, b), b)
  }

  ghost predicate Solution(d: nat, l: Mat, y: Vec, b: Vec) {
    |y| == |b| == d && forall j :: 0 <= j < d ==> RowTimes(d, l, y, j) == b[j]
  }

  // s is the squared distance of q from these rows.
  ghost predicate IsSquaredDistance(rows: seq<Vec>, d: nat, q: Vec, s: real)
    requires d > 0
  {
    exists mean, c, l, y :: IsMean(rows, d, mean) && IsRidged(rows, d, mean, c) && IsCholesky(d, c, l)
                            && Whitened(d, q, mean, l, y) && s == Sum(d, j => Times(At(y, j), At(y, j)))
  }

  // y is the frame's deviation from the mean, seen through the factor.
  ghost predicate Whitened(d: nat, q: Vec, mean: Vec, l: Mat, y: Vec) {
    |y| == d && forall j :: 0 <= j < d ==> RowTimes(d, l, y, j) == At(q, j) - At(mean, j)
  }

  // Frame i gets the root of its squared distance from the remaining frames, which
  // `RemainingAreOthers` lists.
  lemma {:induction false} HeldDistance(xs: seq<Vec>, labels: seq<int>, d: nat, cholesky: Factor, solve: Solver,
                                        root: real -> real, i: nat) returns (s: real)
    requires |xs| == |labels| && d > 0 && i < |xs| && Rebuildable(xs, labels, d, cholesky, labels[i])
    requires Factors(cholesky, d) && Solves(solve, d)
    ensures IsSquaredDistance(Remaining(xs, labels, labels[i]), d, xs[i], s)
    ensures RebuiltDistance(xs, labels, d, cholesky, solve, root, i) == root(s)
  {
    var rows := Remaining(xs, labels, labels[i]);
    CovarianceSymmetric(d, rows);
    MeanBalances(rows, d);
    CovarianceIsRidged(rows, d);
    var mean, c := Mean(rows, d), Covariance(rows, d);
    var l := cholesky(c).value;
    var y := solve(l, Centred(xs[i], mean, d));
    assert IsLower(d, l);
    assert Solution(d, l, y, Centred(xs[i], mean, d));
    assert Whitened(d, xs[i], mean, l, y);
    hide IsMean, IsRidged, IsCholesky, Whitened, Times, Covariance, Mean, Remaining;
    s := Norm2(d, y);
    SumSame(d, j => Times(At(y, j), At(y, j)), i => Times(At(y, i), At(y, i)));
    assert IsSquaredDistance(rows, d, xs[i], s);
  }

  // ---------------------------------------------------------- it is determined

  // A positive definite matrix has one Cholesky factor.
  lemma {:induction false} CholeskyUnique(d: nat, c: Mat, a: Mat, b: Mat, i: nat, j: nat)
    requires IsCholesky(d, c, a) && IsCholesky(d, c, b) && i < d && j < d
    ensures Entry(a, i, j) == Entry(b, i, j)
    decreases i, j
  {
    if j <= i {
      hide Times;
      var f: int -> real := m => Times(Entry(a, i, m), Entry(a, j, m));
      var g: int -> real := m => Times(Entry(b, i, m), Entry(b, j, m));
      forall m | 0 <= m < j
        ensures f(m) == g(m)
      {
        CholeskyUnique(d, c, a, b, i, m);
        CholeskyUnique(d, c, a, b, j, m);
      }
      SumSame(j, f, g);
      UpToDiagonal(d, c, a, i, j, f);
      UpToDiagonal(d, c, b, i, j, g);
      assert f(j) == g(j);
      if j < i {
        CholeskyUnique(d, c, a, b, j, j);
        TimesCommutes(Entry(a, i, j), Entry(a, j, j));
        TimesCommutes(Entry(b, i, j), Entry(b, j, j));
        TimesCancels(Entry(a, j, j), Entry(a, i, j), Entry(b, i, j));
      } else {
        SquaresEqual(Entry(a, i, i), Entry(b, i, i));
      }
    }
  }

  lemma UpToDiagonal(d: nat, c: Mat, l: Mat, i: nat, j: nat, f: int -> real)
    requires IsCholesky(d, c, l) && j <= i < d
    requires forall m :: f(m) == Times(Entry(l, i, m), Entry(l, j, m))
    ensures Entry(c, i, j) == Sum(j, f) + f(j)
  {
    hide Times;
    forall m | j < m < d
      ensures f(m) == 0.0
    {
      TimesUnit(Entry(l, i, m));
    }
    SumTruncate(d, j + 1, f);
    SumSame(d, f, m => Times(Entry(l, i, m), Entry(l, j, m)));
    assert GramAt(d, l, i, j) == Entry(c, i, j);
  }

  lemma SquaresEqual(x: real, y: real)
    requires x > 0.0 && y > 0.0 && Times(x, x) == Times(y, y)
    ensures x == y
  {
    hide Times;
    TimesDistributes(x + y, x, y);
    TimesCommutes(x + y, x);
    TimesCommutes(x + y, y);
    TimesDistributes(x, x, y);
    TimesDistributes(y, x, y);
    TimesCommutes(x, y);
    TimesPositive(x + y, x - y);
  }

  lemma RidgedUnique(rows: seq<Vec>, d: nat, mean: Vec, a: Mat, b: Mat)
    requires d > 0 && rows != [] && IsRidged(rows, d, mean, a) && IsRidged(rows, d, mean, b)
    ensures a == b
  {
    hide Times, Over, Scatter;
    forall j, k | 0 <= j < d && 0 <= k < d
      ensures a[j][k] == b[j][k]
    {
      assert Times(|rows| as real, Entry(a, j, k)) == Times(|rows| as real, Entry(b, j, k));
      TimesCancels(|rows| as real, Entry(a, j, k), Entry(b, j, k));
    }
    forall j | 0 <= j < d
      ensures a[j] == b[j]
    {
    }
  }

  // The definition leaves one squared distance.
  lemma {:induction false} SquaredDistanceUnique(rows: seq<Vec>, d: nat, q: Vec, s: real, t: real)
    requires d > 0 && rows != [] && IsSquaredDistance(rows, d, q, s) && IsSquaredDistance(rows, d, q, t)
    ensures s == t
  {
    var ma, ca, la, ya :| IsMean(rows, d, ma) && IsRidged(rows, d, ma, ca) && IsCholesky(d, ca, la)
                          && Whitened(d, q, ma, la, ya) && s == Sum(d, j => Times(At(ya, j), At(ya, j)));
    var mb, cb, lb, yb :| IsMean(rows, d, mb) && IsRidged(rows, d, mb, cb) && IsCholesky(d, cb, lb)
                          && Whitened(d, q, mb, lb, yb) && t == Sum(d, j => Times(At(yb, j), At(yb, j)));
    hide Times;
    MeanUnique(rows, d, ma, mb);
    RidgedUnique(rows, d, ma, ca, cb);
    WhitenedUnique(d, q, ma, ca, la, lb, ya, yb);
    hide *;
  }

  lemma WhitenedUnique(d: nat, q: Vec, mean: Vec, c: Mat, la: Mat, lb: Mat, ya: Vec, yb: Vec)
    requires IsCholesky(d, c, la) && IsCholesky(d, c, lb)
    requires Whitened(d, q, mean, la, ya) && Whitened(d, q, mean, lb, yb)
    ensures ya == yb
  {
    hide Times;
    forall i, j | 0 <= i < d && 0 <= j < d
      ensures la[i][j] == lb[i][j]
    {
      CholeskyUnique(d, c, la, lb, i, j);
    }
    assert forall i :: 0 <= i < d ==> la[i] == lb[i];
    assert la == lb;
    assert MatVec(d, la, ya) == MatVec(d, lb, yb);
    forall i | 0 <= i < d
      ensures ya[i] == yb[i]
    {
      TriangularUnique(d, c, la, ya, yb, i);
    }
  }

  // A squared distance is never negative, and zero exactly at the mean.
  lemma {:induction false} ZeroExactlyAtMean(rows: seq<Vec>, d: nat, q: Vec, s: real, mean: Vec)
    requires d > 0 && rows != [] && IsSquaredDistance(rows, d, q, s) && IsMean(rows, d, mean)
    ensures s >= 0.0
    ensures s == 0.0 <==> forall j :: 0 <= j < d ==> At(q, j) == mean[j]
  {
    var m, c, l, y :| IsMean(rows, d, m) && IsRidged(rows, d, m, c) && IsCholesky(d, c, l)
                      && Whitened(d, q, m, l, y) && s == Sum(d, j => Times(At(y, j), At(y, j)));
    hide Times;
    MeanUnique(rows, d, mean, m);
    var square: int -> real := j => Times(At(y, j), At(y, j));
    forall j | 0 <= j < d
      ensures square(j) >= 0.0 && (square(j) == 0.0 <==> y[j] == 0.0)
    {
      SquareSign(y[j]);
    }
    SumNonnegative(d, square);
    SumSame(d, square, j => Times(At(y, j), At(y, j)));
    ZeroSolution(d, c, l, y);
    assert forall j :: 0 <= j < d ==> MatVec(d, l, y)[j] == At(q, j) - At(mean, j);
  }

  // A held-out frame is at distance zero exactly when it is the mean of the
  // frames of the other episodes.
  lemma {:induction false} ZeroAtTheOthersMean(xs: seq<Vec>, labels: seq<int>, d: nat, cholesky: Factor,
                                               solve: Solver, root: real -> real, i: nat)
    returns (listed: seq<int>, rows: seq<Vec>, mean: Vec)
    requires |xs| == |labels| && d > 0 && i < |xs| && Rebuildable(xs, labels, d, cholesky, labels[i])
    requires Factors(cholesky, d) && Solves(solve, d) && forall s :: s >= 0.0 ==> (root(s) == 0.0 <==> s == 0.0)
    ensures Others(labels, labels[i], listed) && RowsAt(xs, listed, rows) && IsMean(rows, d, mean)
    ensures RebuiltDistance(xs, labels, d, cholesky, solve, root, i) == 0.0
       <==> forall j :: 0 <= j < d ==> At(xs[i], j) == mean[j]
  {
    var s := HeldDistance(xs, labels, d, cholesky, solve, root, i);
    rows := Remaining(xs, labels, labels[i]);
    listed := RemainingAreOthers(xs, labels, labels[i]);
    MeanBalances(rows, d);
    mean := Mean(rows, d);
    hide IsMean, IsSquaredDistance, RebuiltDistance, Mean;
    ZeroExactlyAtMean(rows, d, xs[i], s, mean);
  }

  // A triangular system has the zero solution exactly for the zero right side.
  lemma ZeroSolution(d: nat, c: Mat, l: Mat, y: Vec)
    requires IsCholesky(d, c, l) && |y| == d
    ensures (forall j :: 0 <= j < d ==> y[j] == 0.0) <==> forall j :: 0 <= j < d ==> MatVec(d, l, y)[j] == 0.0
  {
    hide Times;
    var zero: Vec := seq(d, j => 0.0);
    forall i | 0 <= i < d
      ensures MatVec(d, l, zero)[i] == 0.0
    {
      forall j | 0 <= j < d
        ensures Times(Entry(l, i, j), At(zero, j)) == 0.0
      {
        TimesUnit(Entry(l, i, j));
      }
      SumZero(d, j => Times(Entry(l, i, j), At(zero, j)));
    }
    assert (forall j :: 0 <= j < d ==> y[j] == 0.0) ==> y == zero;
    if forall j :: 0 <= j < d ==> MatVec(d, l, y)[j] == 0.0 {
      assert MatVec(d, l, y) == MatVec(d, l, zero);
      forall j | 0 <= j < d
        ensures y[j] == 0.0
      {
        TriangularUnique(d, c, l, y, zero, j);
      }
    }
  }

  // ------------------------------------------------------------- contributions

  // Channel j's share, spelled out.
  lemma {:induction false} ContributionOfChannel(m: Model, q: Vec, d: nat, j: nat)
    requires j < d
    ensures At(Contributions(m, q, d), j)
         == Times(At(q, j) - At(m.mean, j),
                  Sum(d, k => Times(Entry(m.precision, k, j), At(q, k) - At(m.mean, k))))
  {
    hide Times;
    var centred := Centred(q, m.mean, d);
    SumSame(d, i => Times(Entry(m.precision, i, j), At(centred, i)),
            k => Times(Entry(m.precision, k, j), At(q, k) - At(m.mean, k)));
  }
}
