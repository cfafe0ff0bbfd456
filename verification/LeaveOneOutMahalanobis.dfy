// Mahalanobis distances of every frame to a model without its own episode, from
// sums and a Gram matrix taken down instead of rebuilt.
module LeaveOneOutMahalanobis {
  import opened Outcome
  import opened LinearAlgebra
  import opened Products
  import opened Sequences
  import opened Mahalanobis
  import opened CovarianceDefinite

  type Factor = Mat -> Option<Mat>

  // What `cholesky` promises: on symmetric matrices it returns a factor, and
  // raises exactly when the matrix is not positive definite.
  ghost predicate Factors(cholesky: Factor, d: nat) {
    forall c :: Square(c, d) && Symmetric(d, c) ==>
      && (cholesky(c).Some? <==> PositiveDefinite(d, c))
      && (cholesky(c).Some? ==> IsCholesky(d, c, cholesky(c).value))
  }

  // The reference: a model rebuilt from the rows of the other episodes.
  ghost predicate Rebuildable(xs: seq<Vec>, labels: seq<int>, d: nat, cholesky: Factor, episode: int)
    requires |xs| == |labels| && d > 0
  {
    var others := Remaining(xs, labels, episode);
    others != [] && cholesky(Covariance(others, d)).Some?
  }

  ghost function RebuiltDistance(xs: seq<Vec>, labels: seq<int>, d: nat, cholesky: Factor, solve: Solver,
                                 root: real -> real, i: nat): real
    requires |xs| == |labels| && d > 0 && i < |xs| && Rebuildable(xs, labels, d, cholesky, labels[i])
  {
    var others := Remaining(xs, labels, labels[i]);
    root(SquaredMahalanobis(cholesky(Covariance(others, d)).value, Mean(others, d), solve, xs[i], d))
  }

  // Taking the moments down gives the moments of a rebuild, entry for entry.
  lemma {:induction false} MomentsTakenDown(xs: seq<Vec>, labels: seq<int>, episode: int, d: nat,
                                            sums: Vec, gram: Mat, count: int)
    requires |xs| == |labels| && |sums| == d && Square(gram, d)
    requires count == |xs| - |Held(xs, labels, episode)| && count > 0
    requires forall j :: 0 <= j < d ==> sums[j] == ColumnTotal(xs, j) - ColumnTotal(Held(xs, labels, episode), j)
    requires forall j, k :: 0 <= j < d && 0 <= k < d ==>
               gram[j][k] == GramTotal(xs, j, k) - GramTotal(Held(xs, labels, episode), j, k)
    ensures count == |Remaining(xs, labels, episode)|
    ensures seq(d, j requires 0 <= j < d => Over(sums[j], count as real)) == Mean(Remaining(xs, labels, episode), d)
    ensures gram == Gram(Remaining(xs, labels, episode), d)
  {
    hide Times, Over;
    TakenDown(xs, labels, episode, x => 0.0);
    forall j | 0 <= j < d
      ensures sums[j] == ColumnTotal(Remaining(xs, labels, episode), j)
    {
      TakenDown(xs, labels, episode, x => At(x, j));
    }
    forall j, k | 0 <= j < d && 0 <= k < d
      ensures gram[j][k] == GramTotal(Remaining(xs, labels, episode), j, k)
    {
      TakenDown(xs, labels, episode, x => Times(At(x, j), At(x, k)));
    }
    assert forall j :: 0 <= j < d ==> gram[j] == Gram(Remaining(xs, labels, episode), d)[j];
  }

  // One held-out episode: the down-dated mean and factor.
  method HoldOut(xs: seq<Vec>, labels: seq<int>, d: nat, totalSum: Vec, totalGram: Mat, cholesky: Factor, episode: int)
    returns (r: Result<(Vec, Mat), string>)
    requires |xs| == |labels| && d > 0
    requires totalSum == seq(d, j requires 0 <= j < d => ColumnTotal(xs, j)) && totalGram == Gram(xs, d)
    ensures r.Success? <==> Rebuildable(xs, labels, d, cholesky, episode)
    ensures r.Success? ==>
              var others := Remaining(xs, labels, episode);
              r.value == (Mean(others, d), cholesky(Covariance(others, d)).value)
  {
    var held := Held(xs, labels, episode);
    var remaining := |xs| - |held|;
    TakenDown(xs, labels, episode, x => 0.0);
    if remaining == 0 {
      return Failure("no frames remain");
    }
    var sums := seq(d, j requires 0 <= j < d => totalSum[j] - ColumnTotal(held, j));
    var gram := seq(d, j requires 0 <= j < d =>
      seq(d, k requires 0 <= k < d => totalGram[j][k] - GramTotal(held, j, k)));
    MomentsTakenDown(xs, labels, episode, d, sums, gram, remaining);
    var mean := seq(d, j requires 0 <= j < d => Over(sums[j], remaining as real));
    var factor := cholesky(Regularised(gram, mean, remaining as real, d));
    if factor.None? {
      return Failure("Matrix is not positive definite");
    }
    return Success((mean, factor.value));
  }

  // `out[rows] = ...` for one episode's rows.
  method ScoreEpisode(out: array<real>, xs: seq<Vec>, labels: seq<int>, d: nat, mean: Vec, factor: Mat,
                      ghost cholesky: Factor, solve: Solver, root: real -> real, episode: int)
    requires |xs| == |labels| == out.Length && d > 0
    requires Rebuildable(xs, labels, d, cholesky, episode)
    requires var others := Remaining(xs, labels, episode);
             mean == Mean(others, d) && factor == cholesky(Covariance(others, d)).value
    modifies out
    ensures forall i :: 0 <= i < |xs| && labels[i] != episode ==> out[i] == old(out[i])
    ensures forall i :: 0 <= i < |xs| && labels[i] == episode ==>
              out[i] == RebuiltDistance(xs, labels, d, cholesky, solve, root, i)
  {
    hide Times, Over, Remaining, Covariance, Mean, SquaredMahalanobis;
    for i := 0 to |xs|
      invariant forall k :: 0 <= k < |xs| && (labels[k] != episode || k >= i) ==> out[k] == old(out[k])
      invariant forall k :: 0 <= k < i && labels[k] == episode ==>
                  out[k] == RebuiltDistance(xs, labels, d, cholesky, solve, root, k)
    {
      if labels[i] == episode {
        out[i] := root(SquaredMahalanobis(factor, mean, solve, xs[i], d));
      }
    }
  }

  // The remaining frames of an episode are some, and not all the same frame.
  ghost predicate Varied(xs: seq<Vec>, labels: seq<int>, d: nat, episode: int)
    requires |xs| == |labels|
  {
    Remaining(xs, labels, episode) != [] && !AllEqual(Remaining(xs, labels, episode), d)
  }

  // When the leave-one-out run fails, read off the frames: holding out some
  // episode leaves nothing, or copies of one frame.
  lemma {:induction false} RunSucceedsWhen(xs: seq<Vec>, labels: seq<int>, d: nat, cholesky: Factor)
    requires |xs| == |labels| && d > 0 && Factors(cholesky, d)
    ensures (forall i :: 0 <= i < |labels| ==> Rebuildable(xs, labels, d, cholesky, labels[i]))
       <==> forall i :: 0 <= i < |labels| ==> Varied(xs, labels, d, labels[i])
  {
    hide Covariance, PositiveDefinite, AllEqual, Remaining;
    forall i | 0 <= i < |labels|
      ensures Rebuildable(xs, labels, d, cholesky, labels[i]) <==> Varied(xs, labels, d, labels[i])
    {
      var others := Remaining(xs, labels, labels[i]);
      if others != [] {
        CovarianceSymmetric(d, others);
        DefiniteUnlessConstant(d, others);
      }
    }
  }

  // Every frame gets the distance of a model rebuilt without its episode.  The
  // run fails exactly when one of those rebuilds would, which under the contract
  // of `cholesky` is when the frames that remain are none or copies of one frame.
  method LoeoMahalanobis(xs: seq<Vec>, labels: seq<int>, d: nat, cholesky: Factor, solve: Solver, root: real -> real)
    returns (r: Result<seq<real>, string>)
    requires |xs| == |labels| && d > 0
    ensures r.Success? <==> forall i :: 0 <= i < |labels| ==> Rebuildable(xs, labels, d, cholesky, labels[i])
    ensures Factors(cholesky, d) ==>
              (r.Success? <==> forall i :: 0 <= i < |labels| ==> Varied(xs, labels, d, labels[i]))
    ensures r.Success? ==>
              && |r.value| == |xs|
              && forall i :: 0 <= i < |xs| ==> r.value[i] == RebuiltDistance(xs, labels, d, cholesky, solve, root, i)
  {
    hide Times, Over, Rebuildable, RebuiltDistance, Factors, Varied;
    if Factors(cholesky, d) {
      RunSucceedsWhen(xs, labels, d, cholesky);
    }
    var totalSum := seq(d, j requires 0 <= j < d => ColumnTotal(xs, j));
    var totalGram := Gram(xs, d);
    var out := new real[|xs|];
    var episodes := Unique(labels);
    for n := 0 to |episodes|
      invariant forall e :: e in episodes[..n] ==> Rebuildable(xs, labels, d, cholesky, e)
      invariant forall i :: 0 <= i < |xs| && labels[i] in episodes[..n] ==>
                  out[i] == RebuiltDistance(xs, labels, d, cholesky, solve, root, i)
    {
      var episode := episodes[n];
      assert episodes[..n + 1] == episodes[..n] + [episode];
      var model := HoldOut(xs, labels, d, totalSum, totalGram, cholesky, episode);
      if model.Failure? {
        assert episode in labels;
        return Failure(model.error);
      }
      var (mean, factor) := model.value;
      ScoreEpisode(out, xs, labels, d, mean, factor, cholesky, solve, root, episode);
    }
    assert episodes[..|episodes|] == episodes;
    assert forall i :: 0 <= i < |labels| ==> labels[i] in labels;
    return Success(out[..]);
  }
}
