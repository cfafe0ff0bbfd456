// Episode-balanced frames and their weighted channel quantiles, read off the
// piecewise linear curve through the cumulative midpoints.
module WeightedQuantiles {
  import opened Outcome
  import opened Sequences
  import opened Products
  import opened Permutations

  // ------------------------------------------------------ one linear segment

  function Lerp(x: real, x0: real, x1: real, y0: real, y1: real): real
    requires x0 != x1
  {
    y0 + Times(Over(y1 - y0, x1 - x0), x - x0)
  }

  lemma LerpEnds(x0: real, x1: real, y0: real, y1: real)
    requires x0 < x1
    ensures Lerp(x0, x0, x1, y0, y1) == y0
    ensures Lerp(x1, x0, x1, y0, y1) == y1
  {
    hide Times, Over;
    TimesUnit(Over(y1 - y0, x1 - x0));
    OverScales(y1 - y0, x1 - x0);
  }

  lemma LerpMonotone(x: real, x': real, x0: real, x1: real, y0: real, y1: real)
    requires x0 < x1 && y0 <= y1 && x <= x'
    ensures Lerp(x, x0, x1, y0, y1) <= Lerp(x', x0, x1, y0, y1)
  {
    hide Times, Over;
    var slope := Over(y1 - y0, x1 - x0);
    OverSign(y1 - y0, x1 - x0);
    TimesDistributes(slope, x' - x0, x - x0);
    assert (x' - x0) - (x - x0) == x' - x;
    if slope > 0.0 {
      TimesPositive(slope, x' - x);
    } else {
      TimesUnit(x' - x);
    }
  }

  lemma LerpBetween(x: real, x0: real, x1: real, y0: real, y1: real)
    requires x0 < x1 && y0 <= y1 && x0 <= x <= x1
    ensures y0 <= Lerp(x, x0, x1, y0, y1) <= y1
  {
    LerpEnds(x0, x1, y0, y1);
    LerpMonotone(x0, x, x0, x1, y0, y1);
    LerpMonotone(x, x1, x0, x1, y0, y1);
    hide Lerp;
  }

  lemma TimesOrder(c: real, x: real, y: real)
    requires c > 0.0
    ensures x < y <==> Times(c, x) < Times(c, y)
    ensures x <= y <==> Times(c, x) <= Times(c, y)
  {
    hide Times;
    TimesPositive(c, y - x);
    TimesDistributes(c, y, x);
  }

  lemma OverRescaled(c: real, dy: real, dx: real)
    requires c > 0.0 && dx > 0.0
    ensures Times(c, dx) > 0.0
    ensures Times(Over(dy, Times(c, dx)), c) == Over(dy, dx)
  {
    hide Times, Over;
    TimesPositive(c, dx);
    var steep, gentle := Over(dy, dx), Over(dy, Times(c, dx));
    OverScales(dy, dx);
    OverScales(dy, Times(c, dx));
    TimesRegroups(gentle, c, dx);
    TimesCommutes(steep, dx);
    TimesCommutes(Times(gentle, c), dx);
    TimesCancels(dx, steep, Times(gentle, c));
  }

  lemma LerpRescaled(c: real, x: real, x0: real, x1: real, y0: real, y1: real)
    requires c > 0.0 && x0 < x1
    ensures Times(c, x0) < Times(c, x1)
    ensures Lerp(Times(c, x), Times(c, x0), Times(c, x1), y0, y1) == Lerp(x, x0, x1, y0, y1)
  {
    hide Times, Over;
    TimesOrder(c, x0, x1);
    TimesDistributes(c, x1, x0);
    TimesDistributes(c, x, x0);
    OverRescaled(c, y1 - y0, x1 - x0);
    TimesRegroups(Over(y1 - y0, Times(c, x1 - x0)), c, x - x0);
  }

  // ------------------------------------------------------------ interpolation

  ghost predicate IsCurve(xs: seq<real>, ys: seq<real>) {
    |xs| == |ys| > 0 && Increasing(xs) && Nondecreasing(ys)
  }

  // `interp`: linear between the nodes, held constant outside them.  Two nodes
  // at one place never delimit a segment that is read.
  function Interp(x: real, xs: seq<real>, ys: seq<real>): real
    requires |xs| == |ys| > 0
  {
    if |xs| == 1 || x <= xs[0] then ys[0]
    else if x < xs[1] then Lerp(x, xs[0], xs[1], ys[0], ys[1])
    else Interp(x, xs[1..], ys[1..])
  }

  // On the segment between nodes i and i+1 the curve is that chord.
  lemma {:induction false} InterpSegment(x: real, xs: seq<real>, ys: seq<real>, i: nat)
    requires IsCurve(xs, ys) && i + 1 < |xs| && xs[i] <= x <= xs[i + 1]
    ensures Interp(x, xs, ys) == Lerp(x, xs[i], xs[i + 1], ys[i], ys[i + 1])
    decreases i
  {
    hide Lerp;
    LerpEnds(xs[i], xs[i + 1], ys[i], ys[i + 1]);
    if i == 0 {
      if x == xs[1] {
        assert Interp(x, xs, ys) == Interp(x, xs[1..], ys[1..]);
      }
    } else {
      assert xs[0] < xs[1] <= xs[i];
      InterpSegment(x, xs[1..], ys[1..], i - 1);
    }
  }

  lemma {:induction false} InterpBetween(x: real, xs: seq<real>, ys: seq<real>)
    requires IsCurve(xs, ys)
    ensures ys[0] <= Interp(x, xs, ys) <= ys[|ys| - 1]
  {
    hide Lerp;
    if |xs| > 1 && x > xs[0] {
      if x < xs[1] {
        LerpBetween(x, xs[0], xs[1], ys[0], ys[1]);
      } else {
        InterpBetween(x, xs[1..], ys[1..]);
      }
    }
  }

  lemma {:induction false} InterpMonotone(x: real, x': real, xs: seq<real>, ys: seq<real>)
    requires IsCurve(xs, ys) && x <= x'
    ensures Interp(x, xs, ys) <= Interp(x', xs, ys)
  {
    hide Lerp;
    InterpBetween(x', xs, ys);
    if |xs| > 1 && x > xs[0] {
      if x' < xs[1] {
        LerpMonotone(x, x', xs[0], xs[1], ys[0], ys[1]);
      } else if x < xs[1] {
        LerpBetween(x, xs[0], xs[1], ys[0], ys[1]);
        InterpBetween(x', xs[1..], ys[1..]);
      } else {
        InterpMonotone(x, x', xs[1..], ys[1..]);
      }
    }
  }

  function Scaled(c: real, s: seq<real>): (r: seq<real>)
    ensures |r| == |s|
    ensures forall i :: 0 <= i < |s| ==> r[i] == Times(c, s[i])
  {
    seq(|s|, i requires 0 <= i < |s| => Times(c, s[i]))
  }

  lemma ScaledTail(c: real, s: seq<real>)
    requires s != []
    ensures Scaled(c, s)[1..] == Scaled(c, s[1..])
  {
  }

  lemma {:induction false} InterpRescaled(c: real, x: real, xs: seq<real>, ys: seq<real>)
    requires c > 0.0 && |xs| == |ys| > 0 && Increasing(xs)
    ensures Interp(Times(c, x), Scaled(c, xs), ys) == Interp(x, xs, ys)
  {
    hide Lerp, Times;
    TimesOrder(c, xs[0], x);
    TimesOrder(c, x, xs[0]);
    if |xs| > 1 && x > xs[0] {
      TimesOrder(c, x, xs[1]);
      if x < xs[1] {
        LerpRescaled(c, x, xs[0], xs[1], ys[0], ys[1]);
      } else {
        ScaledTail(c, xs);
        InterpRescaled(c, x, xs[1..], ys[1..]);
      }
    }
  }

  // ---------------------------------------------------- cumulative midpoints

  function TotalWeight(weights: seq<real>): real {
    if weights == [] then 0.0 else weights[0] + TotalWeight(weights[1..])
  }

  // Each weight's midpoint on the running total, which starts at `before`.
  function Midpoints(weights: seq<real>, before: real): (mids: seq<real>)
    ensures |mids| == |weights|
  {
    if weights == [] then []
    else [before + weights[0] - 0.5 * weights[0]] + Midpoints(weights[1..], before + weights[0])
  }

  ghost predicate Positive(weights: seq<real>) {
    forall i :: 0 <= i < |weights| ==> weights[i] > 0.0
  }

  lemma {:induction false} MidpointsIncrease(weights: seq<real>, before: real)
    requires Positive(weights)
    ensures Increasing(Midpoints(weights, before))
    ensures forall i :: 0 <= i < |weights| ==> Midpoints(weights, before)[i] > before
  {
    if weights != [] {
      var w := weights[0];
      MidpointsStep(weights, before);
      hide Midpoints;
      MidpointsIncrease(weights[1..], before + w);
      var mids, rest := Midpoints(weights, before), Midpoints(weights[1..], before + w);
      forall i | 1 <= i < |mids|
        ensures mids[i] == rest[i - 1]
      {
      }
    }
  }

  lemma MidpointsStep(weights: seq<real>, before: real)
    requires weights != []
    ensures var w := weights[0];
            && Midpoints(weights, before) == [before + w - 0.5 * w] + Midpoints(weights[1..], before + w)
            && TotalWeight(weights) == w + TotalWeight(weights[1..])
  {
  }

  lemma MidpointsOfNone(before: real)
    ensures Midpoints([], before) == [] && TotalWeight([]) == 0.0
  {
  }

  lemma ScaledFirst(c: real, x: real, s: seq<real>)
    ensures Scaled(c, [x] + s) == [Times(c, x)] + Scaled(c, s)
  {
  }

  lemma {:induction false} MidpointsRescaled(c: real, weights: seq<real>, before: real)
    ensures Midpoints(Scaled(c, weights), Times(c, before)) == Scaled(c, Midpoints(weights, before))
    ensures TotalWeight(Scaled(c, weights)) == Times(c, TotalWeight(weights))
  {
    hide Times, Midpoints, TotalWeight;
    if weights == [] {
      TimesUnit(c);
      MidpointsOfNone(before);
      MidpointsOfNone(Times(c, before));
    } else {
      var w := weights[0];
      ScaledTail(c, weights);
      FirstMidpoint(c, before, w);
      MidpointsStep(weights, before);
      MidpointsStep(Scaled(c, weights), Times(c, before));
      ScaledFirst(c, before + w - 0.5 * w, Midpoints(weights[1..], before + w));
      MidpointsRescaled(c, weights[1..], before + w);
      TimesDistributes(c, w, TotalWeight(weights[1..]));
    }
  }

  lemma FirstMidpoint(c: real, before: real, w: real)
    ensures Times(c, before + w) == Times(c, before) + Times(c, w)
    ensures Times(c, before + w - 0.5 * w) == Times(c, before) + Times(c, w) - 0.5 * Times(c, w)
  {
    hide Times;
    TimesDistributes(c, before, w);
    TimesDistributes(c, before + w, 0.5 * w);
    HalfOut(c, w);
  }

  lemma HalfOut(c: real, w: real)
    ensures Times(c, 0.5 * w) == 0.5 * Times(c, w)
  {
  }

  // ------------------------------------------------------------ the quantile

  // The promise of `argsort` on real keys; equal keys come in any order.
  ghost predicate SortsKeys(keys: seq<real>, order: seq<int>) {
    && |order| == |keys|
    && IsPermutation(order)
    && Nondecreasing(Arranged(keys, order))
  }

  function Arranged(s: seq<real>, order: seq<int>): (r: seq<real>)
    ensures |r| == |order|
    ensures forall i :: 0 <= i < |order| && 0 <= order[i] < |s| ==> r[i] == s[order[i]]
  {
    seq(|order|, i requires 0 <= i < |order| => if 0 <= order[i] < |s| then s[order[i]] else 0.0)
  }

  // One channel at one fraction.
  function Quantile(values: seq<real>, weights: seq<real>, order: seq<int>, fraction: real): real
    requires |values| == |weights| == |order| > 0
  {
    Interp(Times(fraction, TotalWeight(weights)), Midpoints(Arranged(weights, order), 0.0), Arranged(values, order))
  }

  ghost predicate IsWeighted(values: seq<real>, weights: seq<real>, order: seq<int>) {
    |values| == |weights| > 0 && Positive(weights) && SortsKeys(values, order)
  }

  lemma QuantileCurve(values: seq<real>, weights: seq<real>, order: seq<int>)
    requires IsWeighted(values, weights, order)
    ensures IsCurve(Midpoints(Arranged(weights, order), 0.0), Arranged(values, order))
  {
    MidpointsIncrease(Arranged(weights, order), 0.0);
  }

  // A quantile lies between the channel's least and greatest value, both of
  // which occur, so it lies below every bound of the channel and above none.
  lemma {:induction false} QuantileWithinChannel(values: seq<real>, weights: seq<real>, order: seq<int>, fraction: real)
    requires IsWeighted(values, weights, order)
    ensures exists least :: 0 <= least < |values| && values[least] <= Quantile(values, weights, order, fraction)
                            && forall i :: 0 <= i < |values| ==> values[least] <= values[i]
    ensures exists greatest :: && 0 <= greatest < |values|
                               && Quantile(values, weights, order, fraction) <= values[greatest]
                               && forall i :: 0 <= i < |values| ==> values[i] <= values[greatest]
  {
    hide Interp, Midpoints, Times;
    QuantileCurve(values, weights, order);
    var ordered := Arranged(values, order);
    InterpBetween(Times(fraction, TotalWeight(weights)), Midpoints(Arranged(weights, order), 0.0), ordered);
    var n := |values| - 1;
    var least, greatest := order[0], order[n];
    forall i | 0 <= i < |values|
      ensures values[least] <= values[i] <= values[greatest]
    {
      PermutationIsOnto(order, i);
      var at :| 0 <= at < |order| && order[at] == i;
      assert ordered[0] <= ordered[at] <= ordered[n];
    }
  }

  lemma {:induction false} TotalIsPositive(weights: seq<real>)
    requires Positive(weights)
    ensures TotalWeight(weights) >= 0.0
    ensures weights != [] ==> TotalWeight(weights) > 0.0
  {
    if weights != [] {
      TotalIsPositive(weights[1..]);
    }
  }

  lemma {:induction false} QuantileMonotone(values: seq<real>, weights: seq<real>, order: seq<int>, low: real,
                                            high: real)
    requires IsWeighted(values, weights, order) && low <= high
    ensures Quantile(values, weights, order, low) <= Quantile(values, weights, order, high)
  {
    hide Interp, Midpoints, Times;
    var total := TotalWeight(weights);
    TotalIsPositive(weights);
    QuantileCurve(values, weights, order);
    TimesOrder(total, low, high);
    TimesCommutes(low, total);
    TimesCommutes(high, total);
    InterpMonotone(Times(low, total), Times(high, total), Midpoints(Arranged(weights, order), 0.0),
                   Arranged(values, order));
  }

  // Only the weights' proportions matter.
  lemma {:induction false} QuantileRescaled(values: seq<real>, weights: seq<real>, order: seq<int>, fraction: real,
                                            c: real)
    requires IsWeighted(values, weights, order) && c > 0.0
    ensures Quantile(values, Scaled(c, weights), order, fraction) == Quantile(values, weights, order, fraction)
  {
    hide Interp, Midpoints, Times;
    var total := TotalWeight(weights);
    var ordered := Arranged(weights, order);
    assert Arranged(Scaled(c, weights), order) == Scaled(c, ordered);
    MidpointsRescaled(c, weights, 0.0);
    MidpointsRescaled(c, ordered, 0.0);
    TimesUnit(c);
    TimesRegroups(fraction, c, total);
    QuantileCurve(values, weights, order);
    InterpRescaled(c, Times(fraction, total), Midpoints(ordered, 0.0), Arranged(values, order));
  }

  // ------------------------------------------------ the equal-weight median

  // The ordinary median of an ordered sample.
  function Median(ordered: seq<real>): real
    requires ordered != []
  {
    var n := |ordered|;
    if n % 2 == 1 then ordered[n / 2] else (ordered[n / 2 - 1] + ordered[n / 2]) / 2.0
  }

  ghost predicate AllEqual(weights: seq<real>, w: real) {
    forall i :: 0 <= i < |weights| ==> weights[i] == w
  }

  lemma TimesNext(w: real, i: int)
    ensures Times(w, (i + 1) as real) == Times(w, i as real) + w
    ensures Times(w, i as real + 0.5) == Times(w, i as real) + 0.5 * w
  {
  }

  lemma {:induction false} EqualMidpoints(weights: seq<real>, w: real, before: nat, i: nat)
    requires AllEqual(weights, w) && i < |weights|
    ensures Midpoints(weights, Times(w, before as real))[i] == Times(w, (before + i) as real + 0.5)
    decreases i
  {
    hide Times;
    TimesNext(w, before);
    if i > 0 {
      EqualMidpoints(weights[1..], w, before + 1, i - 1);
      assert before + 1 + (i - 1) == before + i;
    }
  }

  lemma {:induction false} EqualTotal(weights: seq<real>, w: real)
    requires AllEqual(weights, w)
    ensures TotalWeight(weights) == Times(w, |weights| as real)
  {
    hide Times;
    if weights == [] {
      TimesUnit(w);
    } else {
      EqualTotal(weights[1..], w);
      TimesNext(w, |weights| - 1);
    }
  }

  lemma HalfTotal(w: real, n: nat)
    ensures n % 2 == 1 ==> Times(0.5, Times(w, n as real)) == Times(w, (n / 2) as real + 0.5)
    ensures n % 2 == 0 && n > 0 ==> Times(0.5, Times(w, n as real)) == Times(w, (n / 2 - 1) as real + 0.5) + 0.5 * w
    ensures n % 2 == 0 && n > 0 ==> Times(w, (n / 2) as real + 0.5) == Times(w, (n / 2 - 1) as real + 0.5) + w
  {
    assert n == n / 2 * 2 + n % 2;
    assert n as real == (n / 2) as real * 2.0 + (n % 2) as real;
    TimesNext(w, n / 2 - 1);
    TimesNext(w, n / 2);
    assert Times(w, (n / 2) as real * 2.0) == Times(w, (n / 2) as real) * 2.0;
    assert n % 2 == 1 ==> Times(w, n as real) == Times(w, (n / 2) as real) * 2.0 + w;
  }

  lemma LerpHalfway(x0: real, w: real, y0: real, y1: real)
    requires w > 0.0
    ensures Lerp(x0 + 0.5 * w, x0, x0 + w, y0, y1) == (y0 + y1) / 2.0
  {
    hide Times, Over;
    assert x0 + w - x0 == w && x0 + 0.5 * w - x0 == 0.5 * w;
    OverScales(y1 - y0, w);
    HalfOut(Over(y1 - y0, w), w);
  }

  // With equal weights the weighted median is the ordinary one, for odd and
  // even samples alike.
  lemma {:induction false} EqualWeightsGiveTheMedian(values: seq<real>, weights: seq<real>, order: seq<int>, w: real)
    requires |values| == |weights| > 0 && w > 0.0 && AllEqual(weights, w) && SortsKeys(values, order)
    ensures Quantile(values, weights, order, 0.5) == Median(Arranged(values, order))
  {
    hide Interp, Midpoints, Times, Lerp;
    var n := |values|;
    var ordered, xs := Arranged(values, order), Midpoints(Arranged(weights, order), 0.0);
    var x := Times(0.5, TotalWeight(weights));
    QuantileCurve(values, weights, order);
    EqualTotal(weights, w);
    HalfTotal(w, n);
    TimesUnit(w);
    var middle := n / 2;
    EqualMidpoints(Arranged(weights, order), w, 0, middle);
    assert xs[middle] == Times(w, middle as real + 0.5);
    if n % 2 == 1 {
      InterpAtNode(xs, ordered, middle);
    } else {
      var left := middle - 1;
      EqualMidpoints(Arranged(weights, order), w, 0, left);
      assert xs[left] == Times(w, left as real + 0.5);
      InterpSegment(x, xs, ordered, left);
      LerpHalfway(xs[left], w, ordered[left], ordered[middle]);
    }
  }

  lemma {:induction false} InterpAtNode(xs: seq<real>, ys: seq<real>, i: nat)
    requires IsCurve(xs, ys) && i < |xs|
    ensures Interp(xs[i], xs, ys) == ys[i]
  {
    hide Lerp;
    if i > 0 {
      InterpSegment(xs[i], xs, ys, i - 1);
      LerpEnds(xs[i - 1], xs[i], ys[i - 1], ys[i]);
    }
  }

  // --------------------------------------------------- the order among ties

  lemma {:induction false} ArrangementsAgree(keys: seq<real>, a: seq<int>, b: seq<int>, i: nat)
    requires SortsKeys(keys, a) && SortsKeys(keys, b) && i < |keys|
    ensures Arranged(keys, a)[i] <= Arranged(keys, b)[i]
  {
    var first, second := Arranged(keys, a), Arranged(keys, b);
    if first[i] > second[i] {
      var below := set k | 0 <= k < i :: a[k];
      var upTo := set k | 0 <= k < i + 1 :: b[k];
      ImageSize(a, i);
      ImageSize(b, i + 1);
      forall v | v in upTo
        ensures v in below
      {
        var k :| 0 <= k < i + 1 && b[k] == v;
        PermutationIsOnto(a, v);
        var at :| 0 <= at < |a| && a[at] == v;
        assert first[at] == second[k] <= second[i];
        assert at < i;
      }
      SubsetSize(upTo, below);
      assert false;
    }
  }

  ghost predicate TiesShareWeights(values: seq<real>, weights: seq<real>)
    requires |values| == |weights|
  {
    forall i, j :: 0 <= i < j < |values| && values[i] == values[j] ==> weights[i] == weights[j]
  }

  ghost predicate Constant(values: seq<real>) {
    forall i, j :: 0 <= i < j < |values| ==> values[i] == values[j]
  }

  // Another sort gives the same quantile at every fraction.
  ghost predicate SameQuantiles(values: seq<real>, weights: seq<real>, a: seq<int>, b: seq<int>)
    requires |values| == |weights| == |a| == |b| > 0
  {
    forall fraction :: Quantile(values, weights, a, fraction) == Quantile(values, weights, b, fraction)
  }

  lemma TiedArrangements(values: seq<real>, weights: seq<real>, a: seq<int>, b: seq<int>)
    requires |values| == |weights| > 0 && SortsKeys(values, a) && SortsKeys(values, b)
    ensures Arranged(values, a) == Arranged(values, b)
    ensures TiesShareWeights(values, weights) ==> Arranged(weights, a) == Arranged(weights, b)
  {
    forall i: nat | i < |values|
      ensures Arranged(values, a)[i] == Arranged(values, b)[i]
      ensures TiesShareWeights(values, weights) ==> Arranged(weights, a)[i] == Arranged(weights, b)[i]
    {
      ArrangementsAgree(values, a, b, i);
      ArrangementsAgree(values, b, a, i);
    }
  }

  lemma {:induction false} MidpointAt(weights: seq<real>, before: real, i: nat)
    requires i < |weights|
    ensures Midpoints(weights, before)[i] == before + TotalWeight(weights[..i + 1]) - 0.5 * weights[i]
    decreases i
  {
    assert weights[..i + 1][1..] == weights[1..][..i];
    if i > 0 {
      MidpointAt(weights[1..], before + weights[0], i - 1);
    } else {
      assert TotalWeight(weights[1..][..0]) == 0.0;
    }
  }

  lemma {:induction false} PrefixGrows(weights: seq<real>, i: nat)
    requires i < |weights|
    ensures TotalWeight(weights[..i + 1]) == TotalWeight(weights[..i]) + weights[i]
    decreases i
  {
    assert weights[..i + 1][1..] == weights[1..][..i];
    if i > 0 {
      PrefixGrows(weights[1..], i - 1);
      assert weights[..i][1..] == weights[1..][..i - 1];
    }
  }

  // The value where the weight up to one node ends and the next one's begins:
  // each value counts with the other's weight.
  function Crossing(u: real, v: real, left: real, right: real): real
    requires left + right != 0.0
  {
    u + Times(Over(v - u, left + right), left)
  }

  lemma LerpAtCrossing(c: real, u: real, v: real, left: real, right: real)
    requires left > 0.0 && right > 0.0
    ensures Lerp(c, c - 0.5 * left, c + 0.5 * right, u, v) == Crossing(u, v, left, right)
  {
    hide Times, Over;
    var dx, half := left + right, 0.5;
    HalfTimes(dx);
    assert c + half * right - (c - half * left) == Times(half, dx);
    OverRescaled(half, v - u, dx);
    var steep := Over(v - u, Times(half, dx));
    assert c - (c - half * left) == half * left;
    HalfTimes(left);
    TimesRegroups(steep, half, left);
  }

  lemma HalfTimes(x: real)
    ensures Times(0.5, x) == 0.5 * x
  {
  }

  // It tells either weight apart.
  lemma CrossingTells(u: real, v: real, left: real, right: real, left': real, right': real)
    requires u < v && left > 0.0 && right > 0.0 && left' > 0.0 && right' > 0.0
    requires Crossing(u, v, left, right) == Crossing(u, v, left', right')
    ensures Times(left, right') == Times(left', right)
  {
    hide Times, Over;
    var d, s, s' := v - u, left + right, left' + right';
    var share, share' := Over(d, s), Over(d, s');
    assert Times(share, left) == Times(share', left');
    OverScales(d, s);
    OverScales(d, s');
    // d s' left == share s s' left == share' s s' left' == d s left'
    Shared(share, s, s', left, d);
    Shared(share', s', s, left', d);
    TimesRegroups(s, s', Times(share, left));
    TimesCommutes(s, s');
    TimesRegroups(s', s, Times(share, left));
    TimesCancels(d, Times(s', left), Times(s, left'));
    TimesSum(left', right', 0.0, left);
    TimesSum(left, right, 0.0, left');
    TimesUnit(left);
    TimesUnit(left');
    TimesCommutes(left, left');
    TimesCommutes(right', left);
    TimesCommutes(right, left');
  }

  lemma Shared(share: real, s: real, s': real, left: real, d: real)
    requires Times(share, s) == d
    ensures Times(d, Times(s', left)) == Times(Times(s, s'), Times(share, left))
  {
    hide Times;
    TimesCommutes(share, s);
    TimesInterchange(s, share, s', left);
  }

  lemma {:induction false} QuantileAtBoundary(values: seq<real>, weights: seq<real>, order: seq<int>, p: nat)
    requires IsWeighted(values, weights, order) && p + 1 < |values|
    ensures TotalWeight(weights) > 0.0
    ensures var ws, ys := Arranged(weights, order), Arranged(values, order);
            && ws[p] > 0.0 && ws[p + 1] > 0.0
            && Quantile(values, weights, order, Over(TotalWeight(ws[..p + 1]), TotalWeight(weights)))
            == Crossing(ys[p], ys[p + 1], ws[p], ws[p + 1])
  {
    hide Times, Over, Interp, Midpoints, Lerp, Crossing, TotalWeight;
    var ws, ys := Arranged(weights, order), Arranged(values, order);
    var xs, c := Midpoints(ws, 0.0), TotalWeight(ws[..p + 1]);
    TotalIsPositive(weights);
    OverScales(c, TotalWeight(weights));
    QuantileCurve(values, weights, order);
    MidpointAt(ws, 0.0, p);
    MidpointAt(ws, 0.0, p + 1);
    PrefixGrows(ws, p + 1);
    InterpSegment(c, xs, ys, p);
    LerpAtCrossing(c, ys[p], ys[p + 1], ws[p], ws[p + 1]);
  }

  lemma {:induction false} TotalUpdated(weights: seq<real>, i: nat, w: real)
    requires i < |weights|
    ensures TotalWeight(weights[i := w]) == TotalWeight(weights) - weights[i] + w
  {
    if i > 0 {
      TotalUpdated(weights[1..], i - 1, w);
      assert weights[i := w][1..] == weights[1..][i - 1 := w];
    } else {
      assert weights[0 := w][1..] == weights[1..];
    }
  }

  function Swapped<T>(s: seq<T>, i: nat, j: nat): (r: seq<T>)
    requires i < |s| && j < |s|
    ensures |r| == |s|
  {
    s[i := s[j]][j := s[i]]
  }

  // Two sorts that differ by a swap of tied positions, one of them at the edge
  // of the tie, and the sums of weights before that edge.
  lemma SwapTied(values: seq<real>, weights: seq<real>, a: seq<int>, i: nat, j: nat)
    requires IsWeighted(values, weights, a) && i < |a| && j < |a|
    requires Arranged(values, a)[i] == Arranged(values, a)[j]
    ensures SortsKeys(values, Swapped(a, i, j))
    ensures Arranged(values, Swapped(a, i, j)) == Arranged(values, a)
    ensures Arranged(weights, Swapped(a, i, j)) == Swapped(Arranged(weights, a), i, j)
  {
    var b := Swapped(a, i, j);
    assert Arranged(values, b) == Arranged(values, a);
    assert Arranged(weights, b) == Swapped(Arranged(weights, a), i, j);
  }

  lemma SwapInside(weights: seq<real>, i: nat, j: nat, n: nat)
    requires i < |weights| && j < |weights| && n <= |weights|
    requires (i < n && j < n) || (i >= n && j >= n)
    ensures TotalWeight(Swapped(weights, i, j)[..n]) == TotalWeight(weights[..n])
  {
    var front := weights[..n];
    if i < n {
      TotalUpdated(front, i, front[j]);
      TotalUpdated(front[i := front[j]], j, front[i]);
      assert Swapped(weights, i, j)[..n] == front[i := front[j]][j := front[i]];
    } else {
      assert Swapped(weights, i, j)[..n] == front;
    }
  }

  // Where a nondecreasing sequence leaves a value, and where it reaches one.
  lemma {:induction false} LeavesValue(ys: seq<real>, p: nat, q: nat) returns (r: nat)
    requires Nondecreasing(ys) && p < q < |ys| && ys[p] < ys[q]
    ensures p <= r < q && ys[r] == ys[p] < ys[r + 1]
    decreases q - p
  {
    if ys[p] < ys[p + 1] {
      r := p;
    } else {
      r := LeavesValue(ys, p + 1, q);
    }
  }

  lemma {:induction false} ReachesValue(ys: seq<real>, p: nat, q: nat) returns (r: nat)
    requires Nondecreasing(ys) && p < q < |ys| && ys[p] < ys[q]
    ensures p <= r < q && ys[r] < ys[r + 1] == ys[q]
    decreases q - p
  {
    if ys[q - 1] < ys[q] {
      r := q - 1;
    } else {
      r := ReachesValue(ys, p, q - 1);
    }
  }

  // Swapping an edge position with a tied one of another weight moves the
  // quantile at the edge.
  lemma EdgeSwapShows(values: seq<real>, weights: seq<real>, a: seq<int>, r: nat, edge: nat, other: nat)
    requires IsWeighted(values, weights, a) && r + 1 < |a| && other < |a|
    requires edge == r || edge == r + 1
    requires var ys := Arranged(values, a); ys[r] < ys[r + 1] && ys[other] == ys[edge]
    requires Arranged(weights, a)[edge] != Arranged(weights, a)[other]
    ensures SortsKeys(values, Swapped(a, edge, other)) && !SameQuantiles(values, weights, a, Swapped(a, edge, other))
  {
    hide Times, Over, TotalWeight, Crossing, Quantile, IsPermutation;
    var b, ws, ys := Swapped(a, edge, other), Arranged(weights, a), Arranged(values, a);
    SwapTied(values, weights, a, edge, other);
    if edge == r {
      assert other <= r;
    } else {
      assert other > r;
    }
    SwapInside(ws, edge, other, r + 1);
    QuantileAtBoundary(values, weights, a, r);
    QuantileAtBoundary(values, weights, b, r);
    var vs := Arranged(weights, b);
    var fraction := Over(TotalWeight(ws[..r + 1]), TotalWeight(weights));
    if Quantile(values, weights, a, fraction) == Quantile(values, weights, b, fraction) {
      CrossingTells(ys[r], ys[r + 1], ws[r], ws[r + 1], vs[r], vs[r + 1]);
      if edge == r {
        TimesCommutes(ws[r], ws[r + 1]);
        TimesCommutes(vs[r], ws[r + 1]);
        TimesCancels(ws[r + 1], ws[r], vs[r]);
      } else {
        TimesCancels(ws[r], ws[r + 1], vs[r + 1]);
      }
    }
  }

  lemma PositionOf(a: seq<int>, i: nat) returns (at: nat)
    requires IsPermutation(a) && i < |a|
    ensures at < |a| && a[at] == i
  {
    PermutationIsOnto(a, i);
    at :| 0 <= at < |a| && a[at] == i;
  }

  // Two tied values of different weights and a third value that differs: some
  // other sort shows.
  lemma {:induction false} TieShows(values: seq<real>, weights: seq<real>, a: seq<int>, i: nat, j: nat, m: nat)
    returns (b: seq<int>)
    requires IsWeighted(values, weights, a) && i < |values| && j < |values| && m < |values|
    requires values[i] == values[j] != values[m] && weights[i] != weights[j]
    ensures SortsKeys(values, b) && !SameQuantiles(values, weights, a, b)
  {
    hide Quantile, SameQuantiles;
    var ys, ws := Arranged(values, a), Arranged(weights, a);
    var pi := PositionOf(a, i);
    var pj := PositionOf(a, j);
    var pm := PositionOf(a, m);
    assert ys[pi] == ys[pj] == values[i] && ys[pm] == values[m];
    assert ws[pi] == weights[i] && ws[pj] == weights[j];
    var r, edge: nat;
    if values[i] < values[m] {
      r := LeavesValue(ys, pi, pm);
      edge := r;
    } else {
      r := ReachesValue(ys, pm, pi);
      edge := r + 1;
    }
    var other := if ws[edge] != ws[pi] then pi else pj;
    EdgeSwapShows(values, weights, a, r, edge, other);
    b := Swapped(a, edge, other);
  }

  // The order `argsort` gives to ties shows in no quantile exactly when tied
  // values carry equal weights, or all values are one.
  lemma {:induction false} TieOrderIrrelevantWhen(values: seq<real>, weights: seq<real>, a: seq<int>)
    requires IsWeighted(values, weights, a)
    ensures (forall b :: SortsKeys(values, b) ==> SameQuantiles(values, weights, a, b))
            <==> TiesShareWeights(values, weights) || Constant(values)
  {
    if TiesShareWeights(values, weights) || Constant(values) {
      forall b | SortsKeys(values, b)
        ensures SameQuantiles(values, weights, a, b)
      {
        TiedArrangements(values, weights, a, b);
        if Constant(values) {
          ConstantQuantiles(values, weights, a, b);
        }
      }
    } else {
      var i, j :| 0 <= i < j < |values| && values[i] == values[j] && weights[i] != weights[j];
      var k, l :| 0 <= k < l < |values| && values[k] != values[l];
      var m := if values[k] != values[i] then k else l;
      var b := TieShows(values, weights, a, i, j, m);
    }
  }

  // A witness: of three frames two tie below the third with different weights.
  lemma UnequalTieShows(values: seq<real>, weights: seq<real>, order: seq<int>) returns (b: seq<int>)
    requires |values| == 3 && IsWeighted(values, weights, order)
    requires values[0] == values[1] < values[2] && weights[0] != weights[1]
    ensures SortsKeys(values, b) && !SameQuantiles(values, weights, order, b)
  {
    b := TieShows(values, weights, order, 0, 1, 2);
  }

  lemma ConstantQuantiles(values: seq<real>, weights: seq<real>, a: seq<int>, b: seq<int>)
    requires IsWeighted(values, weights, a) && SortsKeys(values, b) && Constant(values)
    ensures SameQuantiles(values, weights, a, b)
  {
    hide Quantile;
    forall fraction
      ensures Quantile(values, weights, a, fraction) == Quantile(values, weights, b, fraction)
    {
      QuantileWithinChannel(values, weights, a, fraction);
      QuantileWithinChannel(values, weights, b, fraction);
    }
  }

  // ------------------------------------------------------------ all channels

  type Sorter = seq<real> -> seq<int>

  ghost predicate Sorts(sort: Sorter) {
    forall keys: seq<real> :: SortsKeys(keys, sort(keys))
  }

  function Column(rows: seq<seq<real>>, channel: nat): (column: seq<real>)
    requires forall r :: 0 <= r < |rows| ==> channel < |rows[r]|
    ensures |column| == |rows| && forall r :: 0 <= r < |rows| ==> column[r] == rows[r][channel]
  {
    seq(|rows|, r requires 0 <= r < |rows| => rows[r][channel])
  }

  ghost predicate IsCell(column: seq<real>, weights: seq<real>, sort: Sorter, fraction: real, cell: real)
    requires |column| == |weights| > 0
  {
    SortsKeys(column, sort(column)) && cell == Quantile(column, weights, sort(column), fraction)
  }

  // One row of quantiles per fraction, one column per channel.
  method WeightedChannelQuantiles(rows: seq<seq<real>>, weights: seq<real>, channels: nat, fractions: seq<real>,
                                  sort: Sorter)
    returns (out: seq<seq<real>>)
    requires |rows| == |weights| > 0 && forall r :: 0 <= r < |rows| ==> |rows[r]| == channels
    requires Sorts(sort)
    ensures |out| == |fractions| && forall f :: 0 <= f < |out| ==> |out[f]| == channels
    ensures forall f, c :: 0 <= f < |out| && 0 <= c < channels ==>
              IsCell(Column(rows, c), weights, sort, fractions[f], out[f][c])
  {
    out := seq(|fractions|, f => []);
    assert forall f :: 0 <= f < |out| ==> out[f] == [];
    hide Quantile;
    for channel := 0 to channels
      invariant |out| == |fractions| && forall f :: 0 <= f < |out| ==> |out[f]| == channel
      invariant forall f, c :: 0 <= f < |out| && 0 <= c < channel ==>
                  IsCell(Column(rows, c), weights, sort, fractions[f], out[f][c])
    {
      var column := Column(rows, channel);
      var order := sort(column);
      assert SortsKeys(column, order);
      var next := seq(|fractions|, f requires 0 <= f < |fractions| =>
        out[f] + [Quantile(column, weights, order, fractions[f])]);
      assert forall f :: 0 <= f < |next| ==> next[f] == out[f] + [Quantile(column, weights, order, fractions[f])];
      out := next;
    }
  }

  // -------------------------------------------------------------- the loader

  // An episode's entry: its index, the frame count it declares valid if it
  // declares one, and the frames on disk.
  datatype Entry = Entry(episode: int, framesValid: Option<int>, frames: seq<seq<real>>)

  datatype Loaded = Loaded(states: seq<seq<real>>, weights: seq<real>, owners: seq<int>)

  function Valid(entry: Entry): (valid: int)
    ensures valid <= |entry.frames|
    ensures entry.framesValid.None? ==> valid == |entry.frames|
    ensures entry.framesValid.Some? ==> valid <= entry.framesValid.value
    ensures valid < |entry.frames| ==> entry.framesValid == Some(valid)
  {
    var declared := if entry.framesValid.Some? then entry.framesValid.value else |entry.frames|;
    if declared < |entry.frames| then declared else |entry.frames|
  }

  // The entries that contribute a frame.
  function Contributing(entries: seq<Entry>): (count: nat) {
    if entries == [] then 0
    else Contributing(entries[..|entries| - 1]) + (if Valid(entries[|entries| - 1]) > 0 then 1 else 0)
  }

  // The entries of one episode that contribute a frame.
  function ContributingOf(entries: seq<Entry>, episode: int): (count: nat) {
    if entries == [] then 0
    else
      var last := entries[|entries| - 1];
      ContributingOf(entries[..|entries| - 1], episode) + (if Valid(last) > 0 && last.episode == episode then 1 else 0)
  }

  // The weight a cloud gives to the frames of one episode.
  function WeightOf(weights: seq<real>, owners: seq<int>, episode: int): real
    requires |weights| == |owners|
  {
    if weights == [] then 0.0
    else (if owners[0] == episode then weights[0] else 0.0) + WeightOf(weights[1..], owners[1..], episode)
  }

  function ValidFrames(entries: seq<Entry>): seq<seq<real>> {
    if entries == [] then []
    else
      var last := entries[|entries| - 1];
      ValidFrames(entries[..|entries| - 1]) + (if Valid(last) > 0 then last.frames[..Valid(last)] else [])
  }

  lemma {:induction false} WeightsConcat(a: seq<real>, b: seq<real>, s: seq<int>, t: seq<int>, episode: int)
    requires |a| == |s| && |b| == |t|
    ensures TotalWeight(a + b) == TotalWeight(a) + TotalWeight(b)
    ensures WeightOf(a + b, s + t, episode) == WeightOf(a, s, episode) + WeightOf(b, t, episode)
  {
    if a == [] {
      assert a + b == b && s + t == t;
    } else {
      assert (a + b)[1..] == a[1..] + b && (s + t)[1..] == s[1..] + t;
      WeightsConcat(a[1..], b, s[1..], t, episode);
    }
  }

  lemma {:induction false} RepeatedWeight(n: nat, w: real, owner: int, episode: int)
    ensures TotalWeight(Repeated(n, w)) == Times(w, n as real)
    ensures WeightOf(Repeated(n, w), Repeated(n, owner), episode)
         == if owner == episode then Times(w, n as real) else 0.0
  {
    hide Times;
    EqualTotal(Repeated(n, w), w);
    if n > 0 {
      RepeatedWeight(n - 1, w, owner, episode);
      assert Repeated(n, w)[1..] == Repeated(n - 1, w) && Repeated(n, owner)[1..] == Repeated(n - 1, owner);
      TimesNext(w, n - 1);
    } else {
      TimesUnit(w);
    }
  }

  // An entry's frames weigh one in all.
  lemma EntryWeighsOne(valid: nat, owner: int, episode: int)
    requires valid > 0
    ensures TotalWeight(Repeated(valid, 1.0 / valid as real)) == 1.0
    ensures WeightOf(Repeated(valid, 1.0 / valid as real), Repeated(valid, owner), episode)
         == if owner == episode then 1.0 else 0.0
  {
    RepeatedWeight(valid, 1.0 / valid as real, owner, episode);
    assert Times(1.0 / valid as real, valid as real) == 1.0;
  }

  ghost predicate Weighs(entries: seq<Entry>, loaded: Loaded) {
    && |loaded.states| == |loaded.weights| == |loaded.owners|
    && loaded.states == ValidFrames(entries)
    && TotalWeight(loaded.weights) == Contributing(entries) as real
    && Positive(loaded.weights)
    && forall episode :: WeightOf(loaded.weights, loaded.owners, episode) == ContributingOf(entries, episode) as real
  }

  lemma EntryAdded(entries: seq<Entry>, n: nat, loaded: Loaded)
    requires n < |entries| && Weighs(entries[..n], loaded)
    ensures var valid := Valid(entries[n]);
            var rest := if valid <= 0 then loaded else Loaded(loaded.states + entries[n].frames[..valid],
                          loaded.weights + Repeated(valid, 1.0 / valid as real),
                          loaded.owners + Repeated(valid, entries[n].episode));
            Weighs(entries[..n + 1], rest)
  {
    hide TotalWeight, WeightOf, Repeated;
    var valid := Valid(entries[n]);
    assert entries[..n + 1][..n] == entries[..n];
    if valid > 0 {
      var weight := 1.0 / valid as real;
      forall episode
        ensures WeightOf(loaded.weights + Repeated(valid, weight),
                         loaded.owners + Repeated(valid, entries[n].episode), episode)
             == ContributingOf(entries[..n + 1], episode) as real
      {
        EntryWeighsOne(valid, entries[n].episode, episode);
        WeightsConcat(loaded.weights, Repeated(valid, weight), loaded.owners, Repeated(valid, entries[n].episode),
                      episode);
      }
      EntryWeighsOne(valid, 0, 0);
      WeightsConcat(loaded.weights, Repeated(valid, weight), loaded.owners, Repeated(valid, entries[n].episode), 0);
    }
  }

  // Where each loaded frame comes from: its entry, and its place in it.
  ghost predicate LoadedFrom(entries: seq<Entry>, loaded: Loaded, from: seq<(nat, nat)>) {
    && |loaded.states| == |loaded.weights| == |loaded.owners| == |from|
    && (forall i :: 0 <= i < |from| ==> FrameFrom(entries, loaded, i, from[i].0, from[i].1))
    && (forall i, j :: 0 <= i < j < |from| ==>
          from[i].0 < from[j].0 || (from[i].0 == from[j].0 && from[i].1 < from[j].1))
    && (forall e: nat, k: nat :: e < |entries| && k < Valid(entries[e]) ==> (e, k) in from)
  }

  ghost predicate FrameFrom(entries: seq<Entry>, loaded: Loaded, i: int, e: nat, k: nat) {
    && 0 <= i < |loaded.states| == |loaded.weights| == |loaded.owners|
    && e < |entries| && k < Valid(entries[e])
    && loaded.states[i] == entries[e].frames[k]
    && loaded.weights[i] == 1.0 / Valid(entries[e]) as real
    && loaded.owners[i] == entries[e].episode
  }

  lemma {:induction false} FramesAdded(entries: seq<Entry>, n: nat, loaded: Loaded, from: seq<(nat, nat)>)
    returns (more: seq<(nat, nat)>)
    requires n < |entries| && LoadedFrom(entries[..n], loaded, from)
    ensures var valid := Valid(entries[n]);
            var rest := if valid <= 0 then loaded else Loaded(loaded.states + entries[n].frames[..valid],
                          loaded.weights + Repeated(valid, 1.0 / valid as real),
                          loaded.owners + Repeated(valid, entries[n].episode));
            LoadedFrom(entries[..n + 1], rest, more)
  {
    var valid := Valid(entries[n]);
    if valid <= 0 {
      more := from;
    } else {
      more := from + seq(valid, k => (n, k));
      var rest := Loaded(loaded.states + entries[n].frames[..valid],
                         loaded.weights + Repeated(valid, 1.0 / valid as real),
                         loaded.owners + Repeated(valid, entries[n].episode));
      forall i | 0 <= i < |more|
        ensures FrameFrom(entries[..n + 1], rest, i, more[i].0, more[i].1)
      {
        if i < |from| {
          assert FrameFrom(entries[..n], loaded, i, from[i].0, from[i].1);
        }
      }
      forall e: nat, k: nat | e < n + 1 && k < Valid(entries[..n + 1][e])
        ensures (e, k) in more
      {
        if e < n {
          assert entries[..n + 1][e] == entries[..n][e];
          assert (e, k) in from;
        } else {
          assert more[|from| + k] == (e, k);
        }
      }
    }
  }

  // The loaded frames are the valid ones in order; their weights sum to the
  // number of non-empty episodes, one for each.
  method LoadAllValidStates(entries: seq<Entry>) returns (r: Result<Loaded, string>)
    ensures r.Success? <==> Contributing(entries) > 0
    ensures r.Success? ==> Weighs(entries, r.value) && exists from :: LoadedFrom(entries, r.value, from)
  {
    var loaded := Loaded([], [], []);
    ghost var from: seq<(nat, nat)> := [];
    for n := 0 to |entries|
      invariant Weighs(entries[..n], loaded)
      invariant LoadedFrom(entries[..n], loaded, from)
      invariant loaded.states == [] <==> Contributing(entries[..n]) == 0
    {
      hide LoadedFrom;
      EntryAdded(entries, n, loaded);
      from := FramesAdded(entries, n, loaded, from);
      assert entries[..n + 1][..n] == entries[..n];
      var valid := Valid(entries[n]);
      if valid > 0 {
        loaded := Loaded(loaded.states + entries[n].frames[..valid],
                         loaded.weights + Repeated(valid, 1.0 / valid as real),
                         loaded.owners + Repeated(valid, entries[n].episode));
      }
    }
    assert entries[..|entries|] == entries;
    if loaded.states == [] {
      return Failure("no valid demonstration frames");
    }
    return Success(loaded);
  }
}
