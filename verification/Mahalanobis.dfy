// Means and regularised covariances of a cloud, sums taken down by an episode, and
// the exact per-channel split of the squared Mahalanobis distance.
module Mahalanobis {
  import opened LinearAlgebra
  import opened Products

  const RIDGE_RELATIVE: real := 0.000001

  function RowAt(xs: seq<Vec>, r: int): Vec {
    if 0 <= r < |xs| then xs[r] else []
  }

  // The sum of g over the rows of a cloud.
  function Total(xs: seq<Vec>, g: Vec -> real): real {
    Sum(|xs|, r => g(RowAt(xs, r)))
  }

  lemma {:induction false} TotalSnoc(xs: seq<Vec>, x: Vec, g: Vec -> real)
    ensures Total(xs + [x], g) == Total(xs, g) + g(x)
  {
    var f: int -> real := r => g(RowAt(xs + [x], r));
    var h: int -> real := r => g(RowAt(xs, r));
    forall r | 0 <= r < |xs|
      ensures f(r) == h(r)
    {
      assert RowAt(xs + [x], r) == RowAt(xs, r);
    }
    SumSame(|xs|, f, h);
    SumSame(|xs|, h, r => g(RowAt(xs, r)));
    SumSame(|xs| + 1, f, r => g(RowAt(xs + [x], r)));
    assert RowAt(xs + [x], |xs|) == x;
  }

  // -------------------------------------------------------- holding out

  // The rows of one episode, and all the others, in cloud order.
  function Held(xs: seq<Vec>, labels: seq<int>, episode: int): seq<Vec>
    requires |xs| == |labels|
  {
    if xs == [] then []
    else
      var n := |xs| - 1;
      Held(xs[..n], labels[..n], episode) + (if labels[n] == episode then [xs[n]] else [])
  }

  function Remaining(xs: seq<Vec>, labels: seq<int>, episode: int): seq<Vec>
    requires |xs| == |labels|
  {
    if xs == [] then []
    else
      var n := |xs| - 1;
      Remaining(xs[..n], labels[..n], episode) + (if labels[n] == episode then [] else [xs[n]])
  }

  // Any row sum of the remaining cloud is the total minus the held part.
  lemma {:induction false} TakenDown(xs: seq<Vec>, labels: seq<int>, episode: int, g: Vec -> real)
    requires |xs| == |labels|
    ensures Total(Remaining(xs, labels, episode), g) == Total(xs, g) - Total(Held(xs, labels, episode), g)
    ensures |Remaining(xs, labels, episode)| == |xs| - |Held(xs, labels, episode)|
  {
    if xs != [] {
      var n := |xs| - 1;
      TakenDown(xs[..n], labels[..n], episode, g);
      assert xs == xs[..n] + [xs[n]];
      TotalSnoc(xs[..n], xs[n], g);
      if labels[n] == episode {
        TotalSnoc(Held(xs[..n], labels[..n], episode), xs[n], g);
        assert Remaining(xs, labels, episode) == Remaining(xs[..n], labels[..n], episode);
      } else {
        TotalSnoc(Remaining(xs[..n], labels[..n], episode), xs[n], g);
        assert Held(xs, labels, episode) == Held(xs[..n], labels[..n], episode);
      }
    }
  }

  // --------------------------------------------------------------- moments

  function ColumnTotal(xs: seq<Vec>, j: int): real {
    Total(xs, x => At(x, j))
  }

  function GramTotal(xs: seq<Vec>, j: int, k: int): real {
    Total(xs, x => Times(At(x, j), At(x, k)))
  }

  function Mean(xs: seq<Vec>, d: nat): (mean: Vec)
    requires xs != []
    ensures |mean| == d
  {
    seq(d, j requires 0 <= j < d => Over(ColumnTotal(xs, j), |xs| as real))
  }

  // The trace of `gram / count - outer(mean, mean)`.
  function Trace(gram: Mat, mean: Vec, count: real, d: nat): real
    requires count > 0.0
  {
    Sum(d, j => Over(Entry(gram, j, j), count) - Times(At(mean, j), At(mean, j)))
  }

  // `gram / count - outer(mean, mean)` plus the relative ridge.
  function Regularised(gram: Mat, mean: Vec, count: real, d: nat): (c: Mat)
    requires d > 0 && count > 0.0
    ensures Square(c, d)
  {
    var ridge := Times(RIDGE_RELATIVE, Over(Trace(gram, mean, count, d), d as real));
    seq(d, j requires 0 <= j < d =>
      seq(d, k requires 0 <= k < d =>
        Over(Entry(gram, j, k), count) - Times(At(mean, j), At(mean, k)) + (if j == k then ridge else 0.0)))
  }

  function Gram(xs: seq<Vec>, d: nat): (gram: Mat)
    ensures Square(gram, d)
  {
    seq(d, j requires 0 <= j < d => seq(d, k requires 0 <= k < d => GramTotal(xs, j, k)))
  }

  // `_regularised_covariance`
  function Covariance(xs: seq<Vec>, d: nat): (c: Mat)
    requires xs != [] && d > 0
    ensures Square(c, d)
  {
    Regularised(Gram(xs, d), Mean(xs, d), |xs| as real, d)
  }

  // ---------------------------------------------------------------- model

  datatype Model = Model(mean: Vec, precision: Mat, cholesky: Mat)

  function Centred(q: Vec, mean: Vec, d: nat): (c: Vec)
    ensures |c| == d
  {
    seq(d, j requires 0 <= j < d => At(q, j) - At(mean, j))
  }

  // What the library's routines promise, when they return.
  ghost predicate Fitted(m: Model, xs: seq<Vec>, d: nat)
    requires xs != [] && d > 0
  {
    && m.mean == Mean(xs, d)
    && IsInverse(d, Covariance(xs, d), m.precision)
    && IsCholesky(d, Covariance(xs, d), m.cholesky)
  }

  type Solver = (Mat, Vec) -> Vec

  function SquaredMahalanobis(cholesky: Mat, mean: Vec, solve: Solver, q: Vec, d: nat): real {
    Norm2(d, solve(cholesky, Centred(q, mean, d)))
  }

  function Contributions(m: Model, q: Vec, d: nat): (split: Vec)
    ensures |split| == d
  {
    var centred := Centred(q, m.mean, d);
    seq(d, j requires 0 <= j < d => Times(centred[j], At(VecMat(d, centred, m.precision), j)))
  }

  // The contributions of any query to any fitted model add up to the squared
  // distance, although one side multiplies by the precision matrix and the
  // other solves against the Cholesky factor.
  lemma {:induction false} ContributionsAddUp(m: Model, xs: seq<Vec>, d: nat, solve: Solver, q: Vec)
    requires xs != [] && d > 0 && Fitted(m, xs, d)
    requires var y := solve(m.cholesky, Centred(q, m.mean, d));
             |y| == d && MatVec(d, m.cholesky, y) == Centred(q, m.mean, d)
    ensures Sum(d, j => At(Contributions(m, q, d), j)) == SquaredMahalanobis(m.cholesky, m.mean, solve, q, d)
  {
    hide Times, Over;
    var centred := Centred(q, m.mean, d);
    QuadraticFormIsNorm(d, Covariance(xs, d), m.cholesky, m.precision, centred, solve(m.cholesky, centred));
    SumSame(d, j => At(Contributions(m, q, d), j), j => Times(At(centred, j), At(VecMat(d, centred, m.precision), j)));
  }
}
