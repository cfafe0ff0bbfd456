// Onset detection: the sustained-threshold automaton over timed samples, and
// the two searches for a run of consecutive hits.
module Onset {
  import opened Outcome

  datatype Sample = Sample(time: real, value: real)

  // ------------------------------------------------- sustained threshold runs

  ghost predicate Above(series: seq<Sample>, threshold: real, first: nat, last: nat)
    requires first <= last < |series|
  {
    forall k :: first <= k <= last ==> series[k].value > threshold
  }

  // The samples first..last are above the threshold and the run cannot be
  // extended to the left.
  ghost predicate IsRun(series: seq<Sample>, threshold: real, first: nat, last: nat) {
    && first <= last < |series|
    && Above(series, threshold, first, last)
    && (first > 0 ==> series[first - 1].value <= threshold)
  }

  // At sample `last` the run that began at `first` has lasted long enough; a
  // run's own first sample never counts, whatever the duration asked for.
  ghost predicate Fires(series: seq<Sample>, threshold: real, sustain: real, first: nat, last: nat) {
    && IsRun(series, threshold, first, last)
    && first < last
    && series[last].time - series[first].time >= sustain
  }

  // The verdict: the start of the run that fires at the earliest sample.
  ghost predicate IsOnset(series: seq<Sample>, threshold: real, sustain: real, onset: Option<real>) {
    match onset
    case None => forall first: nat, last: nat :: !Fires(series, threshold, sustain, first, last)
    case Some(time) => exists first: nat, last: nat ::
      && Fires(series, threshold, sustain, first, last)
      && time == series[first].time
      && forall f: nat, l: nat :: Fires(series, threshold, sustain, f, l) ==> last <= l
  }

  lemma RunStartUnique(series: seq<Sample>, threshold: real, f: nat, l: nat, f': nat, l': nat)
    requires IsRun(series, threshold, f, l) && IsRun(series, threshold, f', l') && f' <= l <= l'
    ensures f == f'
  {
  }

  // What the loop has learnt after n samples.
  ghost predicate Tracks(series: seq<Sample>, threshold: real, n: nat, start: Option<nat>)
    requires n <= |series|
  {
    match start
    case None => n == 0 || series[n - 1].value <= threshold
    case Some(first) => n > 0 && IsRun(series, threshold, first, n - 1)
  }

  method SustainedOnset(series: seq<Sample>, threshold: real, sustain: real) returns (onset: Option<real>)
    ensures IsOnset(series, threshold, sustain, onset)
  {
    if series == [] {
      return None;
    }
    onset := None;
    var runStart: Option<real> := None;
    ghost var start: Option<nat> := None;
    for n := 0 to |series|
      invariant Tracks(series, threshold, n, start)
      invariant runStart == if start.None? then None else Some(series[start.value].time)
      invariant forall f: nat, l: nat :: Fires(series, threshold, sustain, f, l) ==> n <= l
    {
      var sample := series[n];
      if sample.value > threshold {
        if runStart.None? {
          runStart := Some(sample.time);
          start := Some(n);
        } else if sample.time - runStart.value >= sustain {
          ghost var first, last := start.value, n;
          assert Fires(series, threshold, sustain, first, last) && runStart == Some(series[first].time);
          return runStart;
        }
        forall f: nat | Fires(series, threshold, sustain, f, n)
          ensures false
        {
          RunStartUnique(series, threshold, f, n, start.value, n);
        }
      } else {
        runStart := None;
        start := None;
      }
    }
  }

  // The verdict is determined.
  lemma {:induction false} OnsetUnique(series: seq<Sample>, threshold: real, sustain: real, a: Option<real>,
                                       b: Option<real>)
    requires IsOnset(series, threshold, sustain, a) && IsOnset(series, threshold, sustain, b)
    ensures a == b
  {
    if a.Some? && b.Some? {
      var f: nat, l: nat :| Fires(series, threshold, sustain, f, l) && a.value == series[f].time
        && forall f': nat, l': nat :: Fires(series, threshold, sustain, f', l') ==> l <= l';
      var g: nat, m: nat :| Fires(series, threshold, sustain, g, m) && b.value == series[g].time
        && forall f': nat, l': nat :: Fires(series, threshold, sustain, f', l') ==> m <= l';
      RunStartUnique(series, threshold, f, l, g, m);
    }
  }

  // ------------------------------------------------------------ monotonicity

  // A run above a threshold extends leftwards to a run above a lower one.
  lemma {:induction false} ExtendRun(series: seq<Sample>, threshold: real, first: nat, last: nat) returns (start: nat)
    requires first <= last < |series| && Above(series, threshold, first, last)
    ensures start <= first && IsRun(series, threshold, start, last)
    decreases first
  {
    if first == 0 || series[first - 1].value <= threshold {
      start := first;
    } else {
      start := ExtendRun(series, threshold, first - 1, last);
    }
  }

  // A firing run survives a lower threshold and a shorter sustain when no sample
  // before it is stamped later than its start.
  lemma {:induction false} FiringKept(series: seq<Sample>, high: real, long: real, low: real, short: real,
                                      f: nat, l: nat, lenient: Option<real>)
    requires low <= high && short <= long && Fires(series, high, long, f, l)
    requires IsOnset(series, low, short, lenient)
    requires forall i :: 0 <= i < f ==> series[i].time <= series[f].time
    ensures lenient.Some? && lenient.value <= series[f].time
  {
    var start := ExtendRun(series, low, f, l);
    assert Fires(series, low, short, start, l);
    var g: nat, m: nat :| Fires(series, low, short, g, m) && lenient.value == series[g].time
      && forall f': nat, l': nat :: Fires(series, low, short, f', l') ==> m <= l';
    if start <= m {
      RunStartUnique(series, low, g, m, start, l);
    }
  }

  ghost predicate TimesNondecreasing(series: seq<Sample>) {
    forall i, j :: 0 <= i <= j < |series| ==> series[i].time <= series[j].time
  }

  // On nondecreasing timestamps, asking for less never loses an onset and never
  // makes it later.
  lemma {:induction false} OnsetMonotone(series: seq<Sample>, high: real, long: real, low: real, short: real,
                                         strict: Option<real>, lenient: Option<real>)
    requires TimesNondecreasing(series) && low <= high && short <= long
    requires IsOnset(series, high, long, strict) && IsOnset(series, low, short, lenient)
    ensures NoLater(strict, lenient)
  {
    if strict.Some? {
      var f: nat, l: nat :| Fires(series, high, long, f, l) && strict.value == series[f].time;
      FiringKept(series, high, long, low, short, f, l, lenient);
    }
  }

  // An onset is not lost and not made later.
  ghost predicate NoLater(strict: Option<real>, lenient: Option<real>) {
    strict.Some? ==> lenient.Some? && lenient.value <= strict.value
  }

  function Series(times: seq<real>, values: seq<real>): (series: seq<Sample>)
    requires |times| == |values|
    ensures |series| == |times|
    ensures forall k :: 0 <= k < |times| ==> series[k] == Sample(times[k], values[k])
  {
    seq(|times|, k requires 0 <= k < |times| => Sample(times[k], values[k]))
  }

  // Whatever was measured at these times, asking for less loses and delays
  // nothing; optionally for positive sustains only.
  ghost predicate NeverLater(times: seq<real>, positive: bool) {
    forall values, high, long, low, short, strict, lenient ::
      |values| == |times| && low <= high && short <= long && (positive ==> short > 0.0)
      && IsOnset(Series(times, values), high, long, strict) && IsOnset(Series(times, values), low, short, lenient)
      ==> NoLater(strict, lenient)
  }

  lemma {:induction false} LeastFire(series: seq<Sample>, threshold: real, sustain: real, f: nat, l: nat)
    returns (g: nat, m: nat)
    requires Fires(series, threshold, sustain, f, l)
    ensures Fires(series, threshold, sustain, g, m)
    ensures forall f': nat, l': nat :: Fires(series, threshold, sustain, f', l') ==> m <= l'
    decreases l
  {
    if f': nat, l': nat :| Fires(series, threshold, sustain, f', l') && l' < l {
      g, m := LeastFire(series, threshold, sustain, f', l');
    } else {
      g, m := f, l;
    }
  }

  lemma OnsetExists(series: seq<Sample>, threshold: real, sustain: real) returns (onset: Option<real>)
    ensures IsOnset(series, threshold, sustain, onset)
  {
    if f: nat, l: nat :| Fires(series, threshold, sustain, f, l) {
      var g, m := LeastFire(series, threshold, sustain, f, l);
      onset := Some(series[g].time);
    } else {
      onset := None;
    }
  }

  // Weakly above from i, strongly from f to l, and nowhere else.
  function Step(n: nat, i: nat, f: nat, l: nat): (values: seq<real>)
    ensures |values| == n
    ensures forall k :: 0 <= k < n ==> values[k] == if f <= k <= l then 2.0 else if i <= k < f then 1.0 else 0.0
  {
    seq(n, k => if f <= k <= l then 2.0 else if i <= k < f then 1.0 else 0.0)
  }

  // A sample stamped later than the start of a run, joined to the run by a lower
  // threshold, moves the onset to its own later stamp or hides it.
  lemma {:induction false} LaterStampDelays(times: seq<real>, i: nat, f: nat, l: nat, positive: bool)
    requires i < f < l < |times| && times[i] > times[f]
    requires positive ==> times[l] > times[f]
    ensures !NeverLater(times, positive)
  {
    var series := Series(times, Step(|times|, i, f, l));
    var sustain := times[l] - times[f];
    StepRuns(times, i, f, l);
    var strict := OnsetExists(series, 1.0, sustain);
    var lenient := OnsetExists(series, 0.0, sustain);
    hide Series, Step;
    assert strict == Some(times[f]);
    assert !NoLater(strict, lenient);
  }

  lemma StepRuns(times: seq<real>, i: nat, f: nat, l: nat)
    requires i < f < l < |times|
    ensures var (series, sustain) := (Series(times, Step(|times|, i, f, l)), times[l] - times[f]);
            && Fires(series, 1.0, sustain, f, l)
            && (forall g: nat, m: nat :: Fires(series, 1.0, sustain, g, m) ==> g == f)
            && (forall g: nat, m: nat :: Fires(series, 0.0, sustain, g, m) ==> g == i)
  {
    var series := Series(times, Step(|times|, i, f, l));
    var sustain := times[l] - times[f];
    forall g: nat, m: nat | Fires(series, 1.0, sustain, g, m)
      ensures g == f
    {
      RunFrom(series, 1.0, g, m, f);
    }
    forall g: nat, m: nat | Fires(series, 0.0, sustain, g, m)
      ensures g == i
    {
      RunFrom(series, 0.0, g, m, i);
    }
  }

  // Runs start where the values first exceed the threshold.
  lemma RunFrom(series: seq<Sample>, threshold: real, first: nat, last: nat, start: nat)
    requires IsRun(series, threshold, first, last) && start < |series|
    requires forall k :: 0 <= k < start ==> series[k].value <= threshold
    requires forall k :: start < k < |series| && series[k].value > threshold ==> series[k - 1].value > threshold
    ensures first == start
  {
    assert series[first].value > threshold;
  }

  // Exactly which timestamps keep onsets from being lost or delayed: all but the
  // last in order, for sustains of either sign; for positive sustains, no stamp
  // above the start of a pair of samples that the clock takes forwards.
  lemma {:induction false} NeverLaterExactly(times: seq<real>)
    ensures NeverLater(times, false) <==> forall i, f :: 0 <= i < f < |times| - 1 ==> times[i] <= times[f]
    ensures NeverLater(times, true)
       <==> forall i, f, l :: 0 <= i < f < l < |times| && times[f] < times[l] ==> times[i] <= times[f]
  {
    if i, f :| 0 <= i < f < |times| - 1 && times[i] > times[f] {
      LaterStampDelays(times, i, f, f + 1, false);
    } else {
      OrderedNeverLater(times, false);
    }
    if i, f, l :| 0 <= i < f < l < |times| && times[f] < times[l] && times[i] > times[f] {
      LaterStampDelays(times, i, f, l, true);
    } else {
      OrderedNeverLater(times, true);
    }
  }

  lemma OrderedNeverLater(times: seq<real>, positive: bool)
    requires forall i, f, l :: 0 <= i < f < l < |times| && (positive ==> times[f] < times[l]) ==> times[i] <= times[f]
    ensures NeverLater(times, positive)
  {
    forall values, high, long, low, short, strict, lenient |
      |values| == |times| && low <= high && short <= long && (positive ==> short > 0.0)
      && IsOnset(Series(times, values), high, long, strict) && IsOnset(Series(times, values), low, short, lenient)
      ensures NoLater(strict, lenient)
    {
      var series := Series(times, values);
      if strict.Some? {
        var f: nat, l: nat :| Fires(series, high, long, f, l) && strict.value == series[f].time;
        FiringKept(series, high, long, low, short, f, l, lenient);
      }
    }
  }

  // A witness: the lower threshold joins an earlier sample to the run, and its
  // later stamp hides the duration.
  lemma BackwardTimesLoseOnset()
    ensures var series := [Sample(9.0, 1.0), Sample(0.0, 3.0), Sample(5.0, 3.0)];
            && !TimesNondecreasing(series)
            && IsOnset(series, 2.0, 4.0, Some(0.0))
            && IsOnset(series, 0.0, 4.0, None)
  {
    var series := [Sample(9.0, 1.0), Sample(0.0, 3.0), Sample(5.0, 3.0)];
    assert series[0].time > series[1].time;
    assert Fires(series, 2.0, 4.0, 1, 2);
    forall f: nat, l: nat | Fires(series, 0.0, 4.0, f, l)
      ensures false
    {
    }
  }

  // ---------------------------------------------- consecutive-hit searches

  ghost predicate Hits(flags: seq<bool>, need: nat, index: int) {
    0 <= index && index + need <= |flags| && forall k :: index <= k < index + need ==> flags[k]
  }

  // The least index that starts `need` consecutive hits.
  ghost predicate IsLeastStart(flags: seq<bool>, need: nat, start: Option<nat>) {
    match start
    case None => forall index :: !Hits(flags, need, index)
    case Some(least) => Hits(flags, need, least) && forall index :: 0 <= index < least ==> !Hits(flags, need, index)
  }

  // `phase_metrics`: count the current run, stop when it is long enough.
  method RunCounter(flags: seq<bool>, need: nat) returns (onset: Option<nat>)
    requires need >= 1
    ensures IsLeastStart(flags, need, onset)
  {
    onset := None;
    var run := 0;
    for index := 0 to |flags|
      invariant 0 <= run < need && run <= index
      invariant forall k :: index - run <= k < index ==> flags[k]
      invariant run < index ==> !flags[index - run - 1]
      invariant forall i :: 0 <= i && i + need <= index ==> !Hits(flags, need, i)
    {
      run := if flags[index] then run + 1 else 0;
      var start := index - need + 1;
      if run >= need {
        assert Hits(flags, need, start);
        return Some(start);
      }
      ghost var miss := index - run;
      assert miss >= 0 ==> start <= miss && !flags[miss];
    }
  }

  // `start_phase_window` and `episode_start_states`: test every slice of a
  // range that ends one short of the last possible start.
  method SliceScan(flags: seq<bool>, need: nat) returns (onset: Option<nat>)
    requires need >= 1
    ensures onset.Some? ==> IsLeastStart(flags, need, onset) && onset.value < |flags| - need
    ensures onset.None? ==> forall index :: 0 <= index < |flags| - need ==> !Hits(flags, need, index)
  {
    var index := 0;
    while index < |flags| - need
      invariant 0 <= index
      invariant forall i :: 0 <= i < index ==> !Hits(flags, need, i)
    {
      var all := true;
      for k := index to index + need
        invariant all <==> forall j :: index <= j < k ==> flags[j]
      {
        all := all && flags[k];
      }
      if all {
        return Some(index);
      }
      index := index + 1;
    }
    return None;
  }

  // Where the two searches part: they answer alike unless the only run of hits
  // starts at the very last index it could, which the slice scan never tests.
  lemma {:induction false} SearchesAgree(flags: seq<bool>, need: nat, counted: Option<nat>, scanned: Option<nat>)
    requires need >= 1 && IsLeastStart(flags, need, counted)
    requires scanned.Some? ==> IsLeastStart(flags, need, scanned) && scanned.value < |flags| - need
    requires scanned.None? ==> forall index :: 0 <= index < |flags| - need ==> !Hits(flags, need, index)
    ensures scanned == if counted.Some? && counted.value < |flags| - need then counted else None
    ensures scanned == counted <==> counted != Some(|flags| - need)
    ensures scanned != counted ==> scanned.None?
  {
    if counted.Some? && scanned.Some? {
      assert counted.value <= scanned.value && scanned.value <= counted.value;
    }
  }

  // ------------------------------------------------------- the start window

  // The number of quiet frames kept before the onset, floored and capped.
  function WindowStop(frames: nat, onset: Option<nat>, minFrames: nat, maxFrames: nat): nat {
    var cap := Larger(minFrames, Smaller(maxFrames, frames));
    if onset.None? then frames else Smaller(Larger(onset.value, minFrames), cap)
  }

  function Larger(a: nat, b: nat): nat { if a < b then b else a }

  function Smaller(a: nat, b: nat): nat { if a < b then a else b }

  // Motion past the floor: a started run of hits inside the kept frames.
  ghost predicate MotionInside(flags: seq<bool>, need: nat, minFrames: nat, kept: nat) {
    exists index :: minFrames <= index < kept && Hits(flags, need, index)
  }

  // The window that is actually sliced off an episode.  `first` is the start of
  // the episode's first run of hits, which the scan misses at the very end; that
  // miss is the only way a run starts inside the window past its floor.
  method StartWindow(flags: seq<bool>, need: nat, minFrames: nat, maxFrames: nat, ghost first: Option<nat>)
    returns (onset: Option<nat>, kept: nat)
    requires need >= 1 && IsLeastStart(flags, need, first)
    ensures onset == if first.Some? && first.value < |flags| - need then first else None
    ensures kept == Smaller(WindowStop(|flags|, onset, minFrames, maxFrames), |flags|)
    ensures onset.Some? ==>
              kept == if onset.value < minFrames then if minFrames < |flags| then minFrames else |flags|
                      else if onset.value <= maxFrames then onset.value
                      else if minFrames < maxFrames then maxFrames
                      else minFrames
    ensures onset.None? ==> kept == |flags|
    ensures MotionInside(flags, need, minFrames, kept)
       <==> first == Some(|flags| - need) && minFrames <= |flags| - need
  {
    onset := SliceScan(flags, need);
    SearchesAgree(flags, need, first, onset);
    var stop := WindowStop(|flags|, onset, minFrames, maxFrames);
    kept := if stop < |flags| then stop else |flags|;
    WindowIsQuiet(flags, need, minFrames, maxFrames, onset, first);
  }

  // The floor and the missed last start are the only ways motion enters the
  // window.
  lemma {:induction false} WindowIsQuiet(flags: seq<bool>, need: nat, minFrames: nat, maxFrames: nat,
                                         scanned: Option<nat>, first: Option<nat>)
    requires need >= 1 && IsLeastStart(flags, need, first)
    requires scanned == if first.Some? && first.value < |flags| - need then first else None
    ensures MotionInside(flags, need, minFrames, Smaller(WindowStop(|flags|, scanned, minFrames, maxFrames), |flags|))
       <==> first == Some(|flags| - need) && minFrames <= |flags| - need
  {
    var kept := Smaller(WindowStop(|flags|, scanned, minFrames, maxFrames), |flags|);
    if first == Some(|flags| - need) && minFrames <= |flags| - need {
      assert kept == |flags|;
      assert Hits(flags, need, first.value);
    }
    if scanned.Some? {
      forall index | minFrames <= index < kept
        ensures !Hits(flags, need, index)
      {
        assert index < scanned.value;
      }
    }
  }

  // A witness: a run in the last two frames is found by the counter, missed by
  // the scan, and left in the window.
  lemma MissedLastStart()
    ensures var flags := [false, false, true, true];
            && IsLeastStart(flags, 2, Some(2))
            && (forall index :: 0 <= index < |flags| - 2 ==> !Hits(flags, 2, index))
            && MotionInside(flags, 2, 1, WindowStop(|flags|, None, 1, 3))
  {
    var flags := [false, false, true, true];
    assert Hits(flags, 2, 2);
    assert !flags[0] && !flags[1];
  }
}
