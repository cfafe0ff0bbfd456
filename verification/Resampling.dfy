// Zero-order-hold resampling of a demonstration onto the control grid: which
// sample each control tick holds, and which ticks hold each sample.
module Resampling {
  import opened Outcome
  import opened Sequences

  // ------------------------------------------------------------ the tick grid

  // The time of tick j (also for negative j, where no tick lies).
  function Tick(j: int, period: real): real {
    j as real * period
  }

  function Ceiling(x: real): (r: int)
    ensures x <= r as real < x + 1.0
  {
    -(-x).Floor
  }

  // The first tick at or after time x.
  function FirstTick(x: real, period: real): int
    requires period > 0.0
  {
    Ceiling(x / period)
  }

  // The number of ticks of `arange(0, last + slack, period)`.
  function TickCount(last: real, slack: real, period: real): nat
    requires period > 0.0
  {
    if FirstTick(last + slack, period) > 0 then FirstTick(last + slack, period) else 0
  }

  function Ticks(last: real, slack: real, period: real): (ticks: seq<real>)
    requires period > 0.0
    ensures |ticks| == TickCount(last, slack, period)
    ensures forall j :: 0 <= j < |ticks| ==> ticks[j] == Tick(j, period)
  {
    seq(TickCount(last, slack, period), j => Tick(j, period))
  }

  lemma TickAdds(i: int, j: int, period: real)
    ensures Tick(i + j, period) == Tick(i, period) + Tick(j, period)
  {
  }

  // `FirstTick` is where the ticks cross x.
  lemma TickCrosses(j: int, x: real, period: real)
    requires period > 0.0
    ensures x <= Tick(j, period) <==> FirstTick(x, period) <= j
  {
    var quotient := x / period;
    assert x == quotient * period;
    if quotient <= j as real {
      assert (j as real - quotient) * period >= 0.0;
    } else {
      assert (quotient - j as real) * period > 0.0;
    }
  }

  lemma TicksAscend(i: int, j: int, period: real)
    requires period > 0.0
    ensures i < j <==> Tick(i, period) < Tick(j, period)
  {
    if i < j {
      assert (j - i) as real * period > 0.0;
    } else {
      assert (i - j) as real * period >= 0.0;
    }
  }

  // ------------------------------------------------------------------ the hold

  // `searchsorted(stamps, time, side="right")`: where the time would go, after
  // every stamp equal to it.
  function SearchRight(stamps: seq<real>, time: real): (r: nat)
    ensures r <= |stamps|
  {
    if stamps == [] then 0
    else if stamps[|stamps| - 1] <= time then |stamps|
    else SearchRight(stamps[..|stamps| - 1], time)
  }

  lemma {:induction false} SearchRightSplits(stamps: seq<real>, time: real)
    requires Increasing(stamps)
    ensures forall i :: 0 <= i < |stamps| ==> (stamps[i] <= time <==> i < SearchRight(stamps, time))
  {
    if stamps != [] && stamps[|stamps| - 1] > time {
      var front := stamps[..|stamps| - 1];
      SearchRightSplits(front, time);
      assert forall i :: 0 <= i < |front| ==> front[i] == stamps[i];
    }
  }

  function Clip(index: int, low: int, high: int): int {
    if index < low then low else if index > high then high else index
  }

  // The sample a time holds.
  function HoldIndex(stamps: seq<real>, time: real): (index: nat)
    requires stamps != []
    ensures index < |stamps|
  {
    Clip(SearchRight(stamps, time) - 1, 0, |stamps| - 1)
  }

  // Sample i is the latest at or before the time, or the first when none is.
  ghost predicate IsHeld(stamps: seq<real>, time: real, i: nat)
    requires i < |stamps|
  {
    && (stamps[i] <= time || i == 0)
    && (i + 1 < |stamps| ==> time < stamps[i + 1])
  }

  lemma {:induction false} HoldsLatest(stamps: seq<real>, time: real, i: nat)
    requires i < |stamps| && Increasing(stamps)
    ensures HoldIndex(stamps, time) == i <==> IsHeld(stamps, time, i)
  {
    SearchRightSplits(stamps, time);
    var r := SearchRight(stamps, time);
    var next := i + 1;
    assert next < |stamps| ==> (stamps[next] <= time <==> next < r);
    assert stamps[i] <= time <==> i < r;
  }

  lemma {:induction false} HoldsInOrder(stamps: seq<real>, early: real, late: real)
    requires stamps != [] && Increasing(stamps) && early <= late
    ensures HoldIndex(stamps, early) <= HoldIndex(stamps, late)
  {
    SearchRightSplits(stamps, early);
    SearchRightSplits(stamps, late);
    var r := SearchRight(stamps, early);
    if r > 0 {
      assert stamps[r - 1] <= early;
    }
  }

  // ------------------------------------------------- the ticks of one sample

  // The first tick that holds sample i.
  function FirstUse(stamps: seq<real>, period: real, i: nat): int
    requires period > 0.0 && i < |stamps|
  {
    if i == 0 then 0 else FirstTick(stamps[i], period)
  }

  // The tick after the last one that holds sample i.
  function EndOfUse(stamps: seq<real>, slack: real, period: real, i: nat): int
    requires period > 0.0 && i < |stamps|
  {
    if i == |stamps| - 1 then TickCount(stamps[i], slack, period) else FirstTick(stamps[i + 1], period)
  }

  // The demonstration's clock: strictly increasing from a nonnegative start.
  ghost predicate IsClock(stamps: seq<real>) {
    stamps != [] && Increasing(stamps) && stamps[0] >= 0.0
  }

  // The ticks that hold a sample are exactly one interval of the grid.
  lemma {:induction false} TicksOfSample(stamps: seq<real>, slack: real, period: real, i: nat, j: nat)
    requires IsClock(stamps) && period > 0.0 && slack > 0.0 && i < |stamps|
    ensures var ticks := Ticks(stamps[|stamps| - 1], slack, period);
            (j < |ticks| && HoldIndex(stamps, ticks[j]) == i)
            <==> FirstUse(stamps, period, i) <= j < EndOfUse(stamps, slack, period, i)
  {
    hide Tick, FirstTick, HoldIndex;
    var last := stamps[|stamps| - 1];
    var ticks := Ticks(last, slack, period);
    TickCrosses(j, last + slack, period);
    HoldsLatest(stamps, Tick(j, period), i);
    TickCrosses(j, stamps[i], period);
    if i + 1 < |stamps| {
      assert stamps[i + 1] <= last;
      TickCrosses(j, stamps[i + 1], period);
    }
  }

  // Consecutive samples own consecutive intervals, so the ticks are shared out
  // with none lost and none counted twice.
  lemma {:induction false} UsesAbut(stamps: seq<real>, slack: real, period: real, i: nat)
    requires IsClock(stamps) && period > 0.0 && slack > 0.0 && i < |stamps|
    ensures FirstUse(stamps, period, i) <= EndOfUse(stamps, slack, period, i)
    ensures i + 1 < |stamps| ==> EndOfUse(stamps, slack, period, i) == FirstUse(stamps, period, i + 1)
    ensures 0 <= FirstUse(stamps, period, i)
    ensures EndOfUse(stamps, slack, period, i) <= TickCount(stamps[|stamps| - 1], slack, period)
  {
    hide Tick, FirstTick;
    var last := stamps[|stamps| - 1];
    var count := TickCount(last, slack, period);
    TickZero(period);
    FirstTickMonotone(0.0, stamps[i], period);
    FirstTickMonotone(stamps[i], last + slack, period);
    TickCrosses(0, 0.0, period);
    TickCrosses(-1, 0.0, period);
    TicksAscend(-1, 0, period);
    if i + 1 < |stamps| {
      FirstTickMonotone(0.0, stamps[i + 1], period);
      FirstTickMonotone(stamps[i], stamps[i + 1], period);
      FirstTickMonotone(stamps[i + 1], last + slack, period);
    }
  }

  lemma TickZero(period: real)
    ensures Tick(0, period) == 0.0
  {
  }

  lemma FirstTickMonotone(x: real, y: real, period: real)
    requires period > 0.0 && x <= y
    ensures FirstTick(x, period) <= FirstTick(y, period)
  {
    hide Tick, FirstTick;
    var j := FirstTick(y, period);
    TickCrosses(j, y, period);
    TickCrosses(j, x, period);
  }

  // How often a sample between the first and the last is held: at least the
  // whole periods in its gap, at most that rounded up.
  lemma {:induction false} UseCountBounds(stamps: seq<real>, slack: real, period: real, i: nat)
    requires IsClock(stamps) && period > 0.0 && slack > 0.0 && 0 < i < |stamps| - 1
    ensures var gap := stamps[i + 1] - stamps[i];
            var uses := EndOfUse(stamps, slack, period, i) - FirstUse(stamps, period, i);
            (gap / period).Floor <= uses <= Ceiling(gap / period)
  {
    hide Tick, FirstTick;
    var gap := stamps[i + 1] - stamps[i];
    var p, q := FirstTick(stamps[i], period), FirstTick(gap, period);
    assert q == Ceiling(gap / period) by { FirstTickIs(gap, period); }
    TickCrosses(p, stamps[i], period);
    TickCrosses(q, gap, period);
    TickAdds(p, q, period);
    var sum := p + q;
    TickCrosses(sum, stamps[i + 1], period);
    var whole := (gap / period).Floor;
    WholePeriods(gap, period);
    var before := p - 1;
    TickCrosses(before, stamps[i], period);
    TickAdds(before, whole, period);
    var reached := before + whole;
    TickCrosses(reached, stamps[i + 1], period);
  }

  lemma FirstTickIs(x: real, period: real)
    requires period > 0.0
    ensures FirstTick(x, period) == Ceiling(x / period)
  {
  }

  lemma WholePeriods(gap: real, period: real)
    requires period > 0.0
    ensures Tick((gap / period).Floor, period) <= gap
  {
    var quotient := gap / period;
    assert gap == quotient * period;
    assert (quotient - quotient.Floor as real) * period >= 0.0;
  }

  // A sample before the last is lost exactly when no tick falls in its gap; a
  // gap of a whole period always catches one.
  lemma {:induction false} SampleUsed(stamps: seq<real>, slack: real, period: real, i: nat)
    requires IsClock(stamps) && period > 0.0 && slack > 0.0 && i < |stamps| - 1
    ensures var ticks := Ticks(stamps[|stamps| - 1], slack, period);
            (exists j :: 0 <= j < |ticks| && HoldIndex(stamps, ticks[j]) == i)
            <==> FirstUse(stamps, period, i) < FirstTick(stamps[i + 1], period)
    ensures stamps[i + 1] - stamps[i] >= period ==> FirstUse(stamps, period, i) < FirstTick(stamps[i + 1], period)
  {
    hide Tick, FirstTick, HoldIndex, TickCount;
    var ticks := Ticks(stamps[|stamps| - 1], slack, period);
    var first, end := FirstUse(stamps, period, i), FirstTick(stamps[i + 1], period);
    UsesAbut(stamps, slack, period, i);
    TicksOfSample(stamps, slack, period, i, first);
    if j :| 0 <= j < |ticks| && HoldIndex(stamps, ticks[j]) == i {
      TicksOfSample(stamps, slack, period, i, j);
    }
    if stamps[i + 1] - stamps[i] >= period {
      TickCrosses(first, stamps[i + 1], period);
      TickZero(period);
      var before := first - 1;
      TickAdds(before, 1, period);
      TickOne(period);
      TickCrosses(before, stamps[i], period);
      TicksAscend(before, first, period);
    }
  }

  lemma TickOne(period: real)
    ensures Tick(1, period) == period
  {
  }

  // --------------------------------------------- 30 Hz frames on 50 Hz ticks

  const CONTROL_PERIOD := 1.0 / 50.0
  const SLACK := 0.000000001

  // The stamps of an n-frame episode: frame i at i/30 s.
  function FrameClock(n: nat): (stamps: seq<real>)
    ensures |stamps| == n
    ensures forall i :: 0 <= i < n ==> stamps[i] == i as real / 30.0
  {
    seq(n, i => i as real / 30.0)
  }

  lemma FrameClockIsClock(n: nat)
    requires n >= 1
    ensures IsClock(FrameClock(n))
  {
  }

  function HoldIndices(stamps: seq<real>, ticks: seq<real>): (indices: seq<nat>)
    requires stamps != []
    ensures |indices| == |ticks|
    ensures forall j :: 0 <= j < |ticks| ==> indices[j] == HoldIndex(stamps, ticks[j])
  {
    seq(|ticks|, j requires 0 <= j < |ticks| => HoldIndex(stamps, ticks[j]))
  }

  // The sample indices of a whole episode.
  function ResampledEpisode(stamps: seq<real>): (indices: seq<nat>)
    requires stamps != []
  {
    HoldIndices(stamps, Ticks(stamps[|stamps| - 1], SLACK, CONTROL_PERIOD))
  }

  lemma FrameTicks(frame: nat)
    ensures TickCount(frame as real / 30.0, SLACK, CONTROL_PERIOD) == 5 * frame / 3 + 1
  {
    hide FirstTick;
    var end := frame as real / 30.0 + SLACK;
    var n := 5 * frame / 3;
    var next := n + 1;
    TickCrosses(n, end, CONTROL_PERIOD);
    TickCrosses(next, end, CONTROL_PERIOD);
    assert 5 * frame >= 3 * n && 5 * frame + 1 <= 3 * next;
  }

  // Tick j holds frame 3j/5 rounded down; nothing is clipped at the end.
  lemma {:induction false} HeldFrame(n: nat, j: nat)
    requires n >= 1
    ensures |ResampledEpisode(FrameClock(n))| == 5 * (n - 1) / 3 + 1
    ensures j <= 5 * (n - 1) / 3 ==> ResampledEpisode(FrameClock(n))[j] == 3 * j / 5
  {
    hide HoldIndex;
    var stamps := FrameClock(n);
    FrameTicks(n - 1);
    FrameClockIsClock(n);
    if j <= 5 * (n - 1) / 3 {
      HoldsLatest(stamps, Tick(j, CONTROL_PERIOD), 3 * j / 5);
    }
  }

  // Every frame but the last is held by one or two ticks; the last frame is
  // held only when its number is a multiple of three.
  lemma {:induction false} FrameUses(n: nat, i: nat)
    requires i < n
    ensures var indices := ResampledEpisode(FrameClock(n));
            && (i < n - 1 ==> exists j :: 0 <= j < |indices| && indices[j] == i)
            && (i < n - 1 ==>
                  forall j, k :: 0 <= j < k < |indices| && indices[j] == indices[k] == i ==> k == j + 1)
            && ((exists j :: 0 <= j < |indices| && indices[j] == n - 1) <==> (n - 1) % 3 == 0)
  {
    hide ResampledEpisode;
    var indices := ResampledEpisode(FrameClock(n));
    HeldFrame(n, 0);
    forall j: nat | j < |indices|
      ensures indices[j] == 3 * j / 5
    {
      HeldFrame(n, j);
    }
    var first := (5 * i + 2) / 3;
    assert i < n - 1 ==> indices[first] == i;
    var last := 5 * (n - 1) / 3;
    assert indices[last] == n - 1 <==> (n - 1) % 3 == 0;
  }

  // A witness: of two frames the second is never held.
  lemma SecondOfTwoIsLost()
    ensures ResampledEpisode(FrameClock(2)) == [0, 0]
  {
    hide ResampledEpisode;
    HeldFrame(2, 0);
    HeldFrame(2, 1);
  }

  // ------------------------------------------------------ the warm-start stream

  // The ticks not after `cut`.
  function Until(ticks: seq<real>, cut: real): seq<real> {
    if ticks == [] then []
    else (if ticks[0] <= cut then [ticks[0]] else []) + Until(ticks[1..], cut)
  }

  lemma {:induction false} UntilIsPrefix(ticks: seq<real>, cut: real, n: nat)
    requires n <= |ticks|
    requires forall j :: 0 <= j < |ticks| ==> (ticks[j] <= cut <==> j < n)
    ensures Until(ticks, cut) == ticks[..n]
  {
    if ticks != [] {
      var rest := if n == 0 then 0 else n - 1;
      assert forall j :: 0 <= j < |ticks[1..]| ==> ticks[1..][j] == ticks[j + 1];
      UntilIsPrefix(ticks[1..], cut, rest);
    }
  }

  // The frame each tick of the warm start reads, from the whole episode's ticks
  // cut at the end of a window of `frames` frames; a window with no tick fails.
  function WarmStartIndices(stamps: seq<real>, frames: nat): (r: Result<seq<nat>, string>)
    requires stamps != []
  {
    var ticks := Until(Ticks(stamps[|stamps| - 1], SLACK, CONTROL_PERIOD), (frames as real - 1.0) / 30.0 + SLACK);
    if ticks == [] then Failure("the start window has no control ticks")
    else Success(HoldIndices(stamps, ticks))
  }

  // Cutting the episode's ticks gives the same stream as resampling the window
  // alone, so nothing after the window is ever read.
  lemma {:induction false} WarmStartIsTheWindowResampled(n: nat, frames: nat)
    requires frames <= n && n >= 1
    ensures WarmStartIndices(FrameClock(n), frames)
         == if frames == 0 then Failure("the start window has no control ticks")
            else Success(ResampledEpisode(FrameClock(frames)))
  {
    hide HoldIndex, FirstTick;
    var stamps := FrameClock(n);
    var ticks := Ticks(stamps[n - 1], SLACK, CONTROL_PERIOD);
    var cut := (frames as real - 1.0) / 30.0 + SLACK;
    FrameTicks(n - 1);
    var kept := if frames == 0 then 0 else 5 * (frames - 1) / 3 + 1;
    forall j | 0 <= j < |ticks|
      ensures ticks[j] <= cut <==> j < kept
    {
      assert ticks[j] <= cut <==> 3 * j <= 5 * (frames - 1);
    }
    UntilIsPrefix(ticks, cut, kept);
    if frames > 0 {
      FrameTicks(frames - 1);
      var window := ResampledEpisode(FrameClock(frames));
      var stream := HoldIndices(stamps, ticks[..kept]);
      forall j: nat | j < kept
        ensures stream[j] == window[j]
      {
        HeldFrame(n, j);
        HeldFrame(frames, j);
      }
      assert stream == window;
    }
  }
}
