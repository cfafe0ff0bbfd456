// The finite-scalar quantiser that snaps a token component onto the 21-level
// grid -10/16 .. 10/16, over exact reals.
module FsqQuantizer {

  const FSQ_MIN: real := -0.625
  const FSQ_MAX: real := 0.625
  const FSQ_STEP: real := 0.0625
  const LEVELS: int := 10

  function Abs(x: real): real {
    if x < 0.0 then -x else x
  }

  function Clip(x: real, low: real, high: real): real {
    if x < low then low else if x > high then high else x
  }

  // numpy rounds a half to the even neighbour.
  function RoundHalfEven(x: real): int {
    var below := x.Floor;
    var rest := x - below as real;
    if rest < 0.5 then below
    else if rest > 0.5 then below + 1
    else if below % 2 == 0 then below
    else below + 1
  }

  function Quantize(value: real): real {
    var quantized := RoundHalfEven(Clip(value, FSQ_MIN, FSQ_MAX) / FSQ_STEP) as real * FSQ_STEP;
    Clip(quantized, FSQ_MIN, FSQ_MAX)
  }

  function Level(k: int): real {
    k as real * FSQ_STEP
  }

  // Level k is the answer for x: no other level is nearer, and on a tie the
  // even one is taken.
  ghost predicate IsNearestLevel(x: real, k: int) {
    && -LEVELS <= k <= LEVELS
    && forall j :: -LEVELS <= j <= LEVELS && j != k ==>
         || Abs(Level(k) - x) < Abs(Level(j) - x)
         || (Abs(Level(k) - x) == Abs(Level(j) - x) && k % 2 == 0)
  }

  lemma RoundBounds(x: real)
    ensures Abs(RoundHalfEven(x) as real - x) <= 0.5
    ensures Abs(RoundHalfEven(x) as real - x) == 0.5 ==> RoundHalfEven(x) % 2 == 0
  {
  }

  lemma {:induction false} RoundInRange(x: real)
    requires -10.0 <= x <= 10.0
    ensures -LEVELS <= RoundHalfEven(x) <= LEVELS
  {
    RoundBounds(x);
  }

  // The outer clip never changes anything.
  lemma OuterClipIdle(value: real)
    ensures Quantize(value) == Level(RoundHalfEven(Clip(value, FSQ_MIN, FSQ_MAX) / FSQ_STEP))
  {
    RoundInRange(Clip(value, FSQ_MIN, FSQ_MAX) / FSQ_STEP);
  }

  lemma DistanceInSteps(x: real, k: int)
    ensures Abs(Level(k) - x) == Abs(k as real - x / FSQ_STEP) * FSQ_STEP
  {
  }

  // The quantiser is characterised by nearest-level-with-even-ties: it returns
  // level k of the clipped input exactly when k has that property.
  lemma {:induction false} QuantizeIsNearest(value: real, k: int)
    ensures -LEVELS <= k <= LEVELS && Quantize(value) == Level(k)
            <==> IsNearestLevel(Clip(value, FSQ_MIN, FSQ_MAX), k)
  {
    var x := Clip(value, FSQ_MIN, FSQ_MAX);
    var r := RoundHalfEven(x / FSQ_STEP);
    RoundBounds(x / FSQ_STEP);
    RoundInRange(x / FSQ_STEP);
    OuterClipIdle(value);
    forall j: int
      ensures Abs(Level(j) - x) == Abs(j as real - x / FSQ_STEP) * FSQ_STEP
      ensures j != r ==> Abs(Level(j) - x) >= 0.5 * FSQ_STEP
    {
      DistanceInSteps(x, j);
    }
    assert IsNearestLevel(x, r);
  }

  lemma HalfStepError(value: real)
    ensures Abs(Quantize(value) - Clip(value, FSQ_MIN, FSQ_MAX)) <= FSQ_STEP / 2.0
  {
    OuterClipIdle(value);
    RoundBounds(Clip(value, FSQ_MIN, FSQ_MAX) / FSQ_STEP);
    DistanceInSteps(Clip(value, FSQ_MIN, FSQ_MAX), RoundHalfEven(Clip(value, FSQ_MIN, FSQ_MAX) / FSQ_STEP));
  }

  // A token is unchanged exactly when it is already one of the 21 levels, so
  // quantising twice is quantising once.
  lemma FixedPointsAreLevels(value: real)
    ensures Quantize(value) == value <==> exists k :: -LEVELS <= k <= LEVELS && value == Level(k)
    ensures Quantize(Quantize(value)) == Quantize(value)
  {
    LandsOnLevel(value);
    forall k | -LEVELS <= k <= LEVELS
      ensures Quantize(Level(k)) == Level(k)
    {
      LevelIsFixed(k);
    }
  }

  lemma LandsOnLevel(value: real)
    ensures exists k :: -LEVELS <= k <= LEVELS && Quantize(value) == Level(k)
  {
    RoundInRange(Clip(value, FSQ_MIN, FSQ_MAX) / FSQ_STEP);
    OuterClipIdle(value);
  }

  lemma LevelIsFixed(k: int)
    requires -LEVELS <= k <= LEVELS
    ensures Quantize(Level(k)) == Level(k)
  {
    assert Level(k) / FSQ_STEP == k as real;
  }

  lemma {:induction false} RoundMonotone(x: real, y: real)
    requires x <= y
    ensures RoundHalfEven(x) <= RoundHalfEven(y)
  {
    assert x.Floor <= y.Floor;
    RoundBounds(x);
    RoundBounds(y);
  }

  lemma QuantizeMonotone(x: real, y: real)
    requires x <= y
    ensures Quantize(x) <= Quantize(y)
  {
    RoundMonotone(Clip(x, FSQ_MIN, FSQ_MAX) / FSQ_STEP, Clip(y, FSQ_MIN, FSQ_MAX) / FSQ_STEP);
  }
}
