// Whether the robot went down: the sustained-threshold automaton on negated
// pelvis heights, and the heights the report carries beside the verdict.
module FallDetection {
  import opened Outcome
  import opened Onset
  import BaselineWindow

  const ROBOT_DOWN_SAMPLES := 10
  const TAIL_SAMPLES := 100

  // A tracking row's simulated time and pelvis height, where they are finite.
  datatype Row = Row(time: Option<real>, height: Option<real>)

  // A sample whose time and height are both finite.
  datatype Usable = Usable(time: real, height: real)

  datatype Report =
    | TooFewSamples
    | Judged(detected: bool, bandHold: Option<real>, settled: real, minimum: real, drop: Option<real>,
             belowSince: Option<real>, since: Option<real>)

  function UsableOf(rows: seq<Row>): seq<Usable> {
    if rows == [] then []
    else
      var last := rows[|rows| - 1];
      UsableOf(rows[..|rows| - 1])
      + (if last.time.Some? && last.height.Some? then [Usable(last.time.value, last.height.value)] else [])
  }

  function Finite(rows: seq<Row>): seq<real> {
    if rows == [] then []
    else
      var last := rows[|rows| - 1];
      Finite(rows[..|rows| - 1]) + (if last.height.Some? then [last.height.value] else [])
  }

  // The usable samples are the rows with both figures, in order.
  lemma {:induction false} UsablePicks(rows: seq<Row>) returns (picked: seq<nat>)
    ensures PicksWhere(rows, (row: Row) => row.time.Some? && row.height.Some?, picked)
    ensures |UsableOf(rows)| == |picked|
    ensures forall i :: 0 <= i < |picked| ==>
              rows[picked[i]].time == Some(UsableOf(rows)[i].time)
              && rows[picked[i]].height == Some(UsableOf(rows)[i].height)
  {
    var both := (row: Row) => row.time.Some? && row.height.Some?;
    if rows == [] {
      picked := [];
    } else {
      var n := |rows| - 1;
      var front := UsablePicks(rows[..n]);
      picked := if both(rows[n]) then front + [n] else front;
      PicksOneMore(rows, both, front, picked);
    }
  }

  // The heights of the band are those of the rows that have one, in order.
  lemma {:induction false} FinitePicks(rows: seq<Row>) returns (picked: seq<nat>)
    ensures PicksWhere(rows, (row: Row) => row.height.Some?, picked)
    ensures |Finite(rows)| == |picked|
    ensures forall i :: 0 <= i < |picked| ==> rows[picked[i]].height == Some(Finite(rows)[i])
  {
    var has := (row: Row) => row.height.Some?;
    if rows == [] {
      picked := [];
    } else {
      var n := |rows| - 1;
      var front := FinitePicks(rows[..n]);
      picked := if has(rows[n]) then front + [n] else front;
      PicksOneMore(rows, has, front, picked);
    }
  }

  // `picked` lists, in ascending order, the indices of exactly the rows that pass.
  ghost predicate PicksWhere(rows: seq<Row>, passes: Row -> bool, picked: seq<nat>) {
    && (forall i, j :: 0 <= i < j < |picked| ==> picked[i] < picked[j])
    && (forall i :: 0 <= i < |picked| ==> picked[i] < |rows|)
    && (forall n: nat :: n < |rows| ==> (passes(rows[n]) <==> n in picked))
  }

  lemma PicksOneMore(rows: seq<Row>, passes: Row -> bool, front: seq<nat>, picked: seq<nat>)
    requires rows != [] && PicksWhere(rows[..|rows| - 1], passes, front)
    requires picked == if passes(rows[|rows| - 1]) then front + [|rows| - 1] else front
    ensures PicksWhere(rows, passes, picked)
    ensures forall i :: 0 <= i < |front| ==> front[i] < |rows| - 1 && rows[..|rows| - 1][front[i]] == rows[front[i]]
  {
    var n := |rows| - 1;
    forall m: nat | m < |rows|
      ensures passes(rows[m]) <==> m in picked
    {
      if m < n {
        assert rows[m] == rows[..n][m];
        assert m in picked <==> m in front;
      } else {
        assert n !in front;
      }
    }
  }

  function Heights(usable: seq<Usable>): (heights: seq<real>)
    ensures |heights| == |usable|
    ensures forall k :: 0 <= k < |usable| ==> heights[k] == usable[k].height
  {
    seq(|usable|, k requires 0 <= k < |usable| => usable[k].height)
  }

  function Negated(usable: seq<Usable>): (series: seq<Sample>)
    ensures |series| == |usable|
    ensures forall k :: 0 <= k < |usable| ==> series[k] == Sample(usable[k].time, -usable[k].height)
  {
    seq(|usable|, k requires 0 <= k < |usable| => Sample(usable[k].time, -usable[k].height))
  }

  function Tail(heights: seq<real>): (tail: seq<real>)
    ensures |tail| == if |heights| < 100 then |heights| else 100
    ensures forall k :: 0 <= k < |tail| ==> tail[k] == heights[|heights| - |tail| + k]
  {
    if |heights| > TAIL_SAMPLES then heights[|heights| - TAIL_SAMPLES..] else heights
  }

  // A stretch of samples, not extendable to the left, that stays below the limit
  // from `first` to `last` for long enough.
  ghost predicate Down(usable: seq<Usable>, limit: real, sustain: real, first: nat, last: nat) {
    && first < last < |usable|
    && (forall k :: first <= k <= last ==> usable[k].height < limit)
    && (first > 0 ==> usable[first - 1].height >= limit)
    && usable[last].time - usable[first].time >= sustain
  }

  ghost predicate Falls(usable: seq<Usable>, limit: real, sustain: real) {
    exists first: nat, last: nat :: Down(usable, limit, sustain, first, last)
  }

  lemma DownIsFires(usable: seq<Usable>, limit: real, sustain: real, first: nat, last: nat)
    ensures Down(usable, limit, sustain, first, last) <==> Fires(Negated(usable), -limit, sustain, first, last)
  {
    var series := Negated(usable);
    if first < last < |usable| {
      assert forall k :: first <= k <= last ==> (usable[k].height < limit <==> series[k].value > -limit);
    }
  }

  ghost predicate IsMinimum(heights: seq<real>, minimum: real) {
    minimum in heights && forall k :: 0 <= k < |heights| ==> minimum <= heights[k]
  }

  // The time of the first sample below the limit.
  ghost predicate IsFirstBelow(usable: seq<Usable>, limit: real, since: Option<real>) {
    match since
    case None => forall k :: 0 <= k < |usable| ==> usable[k].height >= limit
    case Some(time) => exists k ::
      && 0 <= k < |usable|
      && usable[k].height < limit && usable[k].time == time
      && forall j :: 0 <= j < k ==> usable[j].height >= limit
  }

  method Minimum(heights: seq<real>) returns (minimum: real)
    requires heights != []
    ensures IsMinimum(heights, minimum)
  {
    minimum := heights[0];
    for k := 1 to |heights|
      invariant minimum in heights && forall j :: 0 <= j < k ==> minimum <= heights[j]
    {
      if heights[k] < minimum {
        minimum := heights[k];
      }
    }
  }

  method FirstBelow(usable: seq<Usable>, limit: real) returns (since: Option<real>)
    ensures IsFirstBelow(usable, limit, since)
  {
    for k := 0 to |usable|
      invariant forall j :: 0 <= j < k ==> usable[j].height >= limit
    {
      if usable[k].height < limit {
        return Some(usable[k].time);
      }
    }
    return None;
  }

  method FallTime(usable: seq<Usable>, limit: real, sustain: real) returns (since: Option<real>)
    ensures IsOnset(Negated(usable), -limit, sustain, since)
    ensures since.Some? <==> Falls(usable, limit, sustain)
  {
    hide IsOnset, Falls;
    since := SustainedOnset(Negated(usable), -limit, sustain);
    VerdictIsDown(usable, limit, sustain, since);
  }

  // The robot fell when its pelvis stays below the limit for long enough.  With
  // fewer than ten usable samples nothing is concluded.
  method DetectFall(rows: seq<Row>, baseline: seq<Row>, limit: real, sustain: real) returns (report: Report)
    ensures report.TooFewSamples? <==> |UsableOf(rows)| < ROBOT_DOWN_SAMPLES
    ensures report.Judged? ==> var usable := UsableOf(rows);
              && (report.detected <==> Falls(usable, limit, sustain))
              && IsOnset(Negated(usable), -limit, sustain, report.since)
              && report.bandHold == BaselineWindow.UpperMedian(Finite(baseline))
              && BaselineWindow.UpperMedian(Tail(Heights(usable))) == Some(report.settled)
              && IsMinimum(Heights(usable), report.minimum)
              && report.drop == (if report.bandHold.None? then None else Some(report.bandHold.value - report.minimum))
              && IsFirstBelow(usable, limit, report.belowSince)
  {
    hide Falls, IsOnset, IsMinimum, IsFirstBelow, BaselineWindow.UpperMedian, UsableOf, Finite;
    var usable := UsableOf(rows);
    if |usable| < ROBOT_DOWN_SAMPLES {
      return TooFewSamples;
    }
    var since := FallTime(usable, limit, sustain);
    var minimum := Minimum(Heights(usable));
    var belowSince := FirstBelow(usable, limit);
    var bandHold := BaselineWindow.UpperMedian(Finite(baseline));
    var tail := Tail(Heights(usable));
    HasMedian(tail);
    var drop := if bandHold.None? then None else Some(bandHold.value - minimum);
    return Judged(since.Some?, bandHold, BaselineWindow.UpperMedian(tail).value, minimum, drop, belowSince, since);
  }

  lemma HasMedian(values: seq<real>)
    requires values != []
    ensures BaselineWindow.UpperMedian(values).Some?
  {
  }

  lemma VerdictIsDown(usable: seq<Usable>, limit: real, sustain: real, since: Option<real>)
    requires IsOnset(Negated(usable), -limit, sustain, since)
    ensures since.Some? <==> Falls(usable, limit, sustain)
  {
    var series, threshold := Negated(usable), -limit;
    forall first: nat, last: nat
      ensures Down(usable, limit, sustain, first, last) <==> Fires(series, threshold, sustain, first, last)
    {
      DownIsFires(usable, limit, sustain, first, last);
    }
    hide Down, Fires, Negated;
    if since.Some? {
      var first: nat, last: nat :| Fires(series, threshold, sustain, first, last);
      assert Down(usable, limit, sustain, first, last);
    }
  }

  // A fall never comes out of the blue: the report also names a sample below the
  // limit and a least height below it, and on ordered times that sample is no
  // later than the fall.
  lemma {:induction false} FallIsBelow(usable: seq<Usable>, limit: real, sustain: real, since: Option<real>,
                                       belowSince: Option<real>, minimum: real)
    requires IsOnset(Negated(usable), -limit, sustain, since) && since.Some?
    requires IsFirstBelow(usable, limit, belowSince) && IsMinimum(Heights(usable), minimum)
    ensures belowSince.Some? && minimum < limit
    ensures (forall i, j :: 0 <= i <= j < |usable| ==> usable[i].time <= usable[j].time) ==>
              belowSince.value <= since.value
  {
    var series, threshold := Negated(usable), -limit;
    var first: nat, last: nat :| Fires(series, threshold, sustain, first, last) && since.value == series[first].time;
    assert series[first].value > threshold;
    assert usable[first].height < limit && Heights(usable)[first] < limit;
  }
}
