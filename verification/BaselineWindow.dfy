// The calmest stretch before a rollout starts: half-overlapping windows of one
// length, each scored by the upper median of its rows, the lowest score wins.
module BaselineWindow {
  import opened Outcome
  import opened Sequences

  // A recorded row: its wall time when that is finite, and what was measured.
  datatype Row = Row(wallTime: Option<real>, speeds: seq<real>)

  type Score = seq<Row> -> seq<real>

  // `int(value)`: truncation toward zero.
  function Truncate(value: real): (r: int)
    ensures value >= 0.0 ==> r as real <= value < r as real + 1.0
    ensures value <= 0.0 ==> r as real - 1.0 < value <= r as real
  {
    if value >= 0.0 then value.Floor else -(-value).Floor
  }

  // -------------------------------------------------------------- the filter

  predicate Inside(row: Row, low: int, high: int) {
    row.wallTime.Some? && low <= Truncate(row.wallTime.value) <= high
  }

  // `picked` lists, in ascending order, the indices of exactly the rows inside.
  ghost predicate PicksInside(rows: seq<Row>, low: int, high: int, picked: seq<nat>) {
    && (forall i, j :: 0 <= i < j < |picked| ==> picked[i] < picked[j])
    && (forall i :: 0 <= i < |picked| ==> picked[i] < |rows|)
    && (forall n :: 0 <= n < |rows| ==> (Inside(rows[n], low, high) <==> n in picked))
  }

  function Selected(rows: seq<Row>, low: int, high: int): seq<Row> {
    if rows == [] then []
    else
      var last := rows[|rows| - 1];
      Selected(rows[..|rows| - 1], low, high)
      + (if Inside(last, low, high) then [last] else [])
  }

  lemma PicksOneMore(rows: seq<Row>, low: int, high: int, front: seq<nat>, picked: seq<nat>)
    requires rows != []
    requires PicksInside(rows[..|rows| - 1], low, high, front)
    requires picked == if Inside(rows[|rows| - 1], low, high) then front + [|rows| - 1] else front
    ensures PicksInside(rows, low, high, picked)
    ensures forall i :: 0 <= i < |front| ==> front[i] < |rows| - 1 && rows[..|rows| - 1][front[i]] == rows[front[i]]
  {
    hide Inside;
    var n := |rows| - 1;
    forall m | 0 <= m < |rows|
      ensures Inside(rows[m], low, high) <==> m in picked
    {
      if m < n {
        assert rows[m] == rows[..n][m];
        assert m in picked <==> m in front;
      } else {
        assert n !in front;
      }
    }
  }

  // The selection is the order-preserving sub-sequence of the rows inside.
  lemma {:induction false} SelectedPicks(rows: seq<Row>, low: int, high: int) returns (picked: seq<nat>)
    ensures PicksInside(rows, low, high, picked)
    ensures |Selected(rows, low, high)| == |picked|
    ensures forall i :: 0 <= i < |picked| ==> Selected(rows, low, high)[i] == rows[picked[i]]
  {
    if rows == [] {
      picked := [];
    } else {
      hide Inside, PicksInside;
      var n := |rows| - 1;
      SelectedLast(rows, low, high);
      hide Selected;
      var front := SelectedPicks(rows[..n], low, high);
      picked := if Inside(rows[n], low, high) then front + [n] else front;
      PicksOneMore(rows, low, high, front, picked);
    }
  }

  lemma SelectedLast(rows: seq<Row>, low: int, high: int)
    requires rows != []
    ensures var n := |rows| - 1;
            Selected(rows, low, high)
            == Selected(rows[..n], low, high) + (if Inside(rows[n], low, high) then [rows[n]] else [])
  {
    hide Inside;
  }

  method Window(rows: seq<Row>, low: int, high: int) returns (selected: seq<Row>)
    ensures selected == Selected(rows, low, high)
  {
    selected := [];
    for n := 0 to |rows|
      invariant selected == Selected(rows[..n], low, high)
    {
      assert rows[..n + 1][..n] == rows[..n];
      var value := rows[n].wallTime;
      if value.Some? {
        if low <= Truncate(value.value) <= high {
          selected := selected + [rows[n]];
        }
      }
    }
    assert rows[..|rows|] == rows;
  }

  // -------------------------------------------------------- the upper median

  function Insert(x: real, s: seq<real>): (r: seq<real>)
    ensures |r| == |s| + 1
    ensures multiset(r) == multiset(s) + multiset{x}
  {
    if s == [] || x <= s[0] then [x] + s
    else
      assert s == [s[0]] + s[1..];
      [s[0]] + Insert(x, s[1..])
  }

  lemma {:induction false} InsertKeepsSorted(x: real, s: seq<real>)
    requires Nondecreasing(s)
    ensures Nondecreasing(Insert(x, s))
  {
    if s != [] && x > s[0] {
      InsertKeepsSorted(x, s[1..]);
      var tail := Insert(x, s[1..]);
      forall i | 0 <= i < |tail|
        ensures s[0] <= tail[i]
      {
        assert tail[i] in multiset(tail);
        assert tail[i] == x || tail[i] in s[1..];
      }
    }
  }

  function Sorted(s: seq<real>): (r: seq<real>)
    ensures |r| == |s|
    ensures multiset(r) == multiset(s)
  {
    if s == [] then []
    else
      assert s == [s[0]] + s[1..];
      Insert(s[0], Sorted(s[1..]))
  }

  lemma {:induction false} SortedIsNondecreasing(s: seq<real>)
    ensures Nondecreasing(Sorted(s))
  {
    if s != [] {
      SortedIsNondecreasing(s[1..]);
      InsertKeepsSorted(s[0], Sorted(s[1..]));
    }
  }

  function UpperMedian(values: seq<real>): Option<real> {
    if values == [] then None else Some(Sorted(values)[|values| / 2])
  }

  function Below(values: seq<real>, bound: real): (count: nat)
    ensures count <= |values|
  {
    if values == [] then 0 else (if values[0] < bound then 1 else 0) + Below(values[1..], bound)
  }

  function AtMost(values: seq<real>, bound: real): (count: nat)
    ensures count <= |values|
  {
    if values == [] then 0 else (if values[0] <= bound then 1 else 0) + AtMost(values[1..], bound)
  }

  lemma {:induction false} CountsFollowMultiset(a: seq<real>, b: seq<real>, bound: real)
    requires multiset(a) == multiset(b)
    ensures Below(a, bound) == Below(b, bound) && AtMost(a, bound) == AtMost(b, bound)
  {
    if a == [] {
      assert multiset(b) == multiset{};
    } else {
      assert a == [a[0]] + a[1..];
      assert a[0] in multiset(b);
      var i :| 0 <= i < |b| && b[i] == a[0];
      var rest := b[..i] + b[i + 1..];
      MultisetWithout(b, i);
      MultisetWithout(a, 0);
      assert a[..0] + a[1..] == a[1..];
      CountsFollowMultiset(a[1..], rest, bound);
      CountRemove(b, i, bound);
    }
  }

  lemma MultisetWithout(s: seq<real>, i: nat)
    requires i < |s|
    ensures multiset(s[..i] + s[i + 1..]) == multiset(s) - multiset{s[i]}
  {
    assert s == s[..i] + [s[i]] + s[i + 1..];
    assert multiset(s) == multiset(s[..i]) + multiset{s[i]} + multiset(s[i + 1..]);
  }

  lemma {:induction false} CountRemove(s: seq<real>, i: nat, bound: real)
    requires i < |s|
    ensures var rest := s[..i] + s[i + 1..];
            && Below(s, bound) == (if s[i] < bound then 1 else 0) + Below(rest, bound)
            && AtMost(s, bound) == (if s[i] <= bound then 1 else 0) + AtMost(rest, bound)
  {
    var rest := s[..i] + s[i + 1..];
    if i == 0 {
      assert rest == s[1..];
    } else {
      CountRemove(s[1..], i - 1, bound);
      assert s[1..][..i - 1] + s[1..][i..] == rest[1..];
    }
  }

  lemma {:induction false} SortedCounts(s: seq<real>, i: nat)
    requires Nondecreasing(s) && i < |s|
    ensures Below(s, s[i]) <= i < AtMost(s, s[i])
    decreases i, |s|
  {
    if i == 0 {
      NoneBelow(s, s[0]);
    } else {
      SortedCounts(s[1..], i - 1);
    }
  }

  lemma {:induction false} NoneBelow(s: seq<real>, bound: real)
    requires forall k :: 0 <= k < |s| ==> bound <= s[k]
    ensures Below(s, bound) == 0
  {
    if s != [] {
      NoneBelow(s[1..], bound);
    }
  }

  // What the median is, whatever sorted it: one of the values, with at most half
  // of them strictly below it and more than half of them at most it.
  lemma {:induction false} UpperMedianRank(values: seq<real>)
    requires values != []
    ensures var median := UpperMedian(values).value;
            && median in values
            && Below(values, median) <= |values| / 2 < AtMost(values, median)
  {
    var s := Sorted(values);
    SortedIsNondecreasing(values);
    SortedCounts(s, |s| / 2);
    CountsFollowMultiset(values, s, s[|s| / 2]);
    assert s[|s| / 2] in multiset(s);
  }

  // ------------------------------------------------------------- the search

  function Step(span: nat): (step: nat)
    ensures step >= 1
  {
    if span / 2 > 1 then span / 2 else 1
  }

  // The k-th candidate's left end.
  function Candidate(reset: int, span: nat, k: nat): int {
    reset + k * Step(span)
  }

  function Calm(rows: seq<Row>, score: Score, low: int, high: int): Option<real> {
    UpperMedian(score(Selected(rows, low, high)))
  }

  ghost predicate IsCandidate(reset: int, start: int, span: nat, k: nat) {
    Candidate(reset, span, k) + span <= start
  }

  // The score of candidate k, None when it holds no data.
  ghost function CandidateScore(rows: seq<Row>, score: Score, reset: int, span: nat, k: nat): Option<real> {
    Calm(rows, score, Candidate(reset, span, k), Candidate(reset, span, k) + span)
  }

  // Candidate k is the calmest of the first n, the earliest of the calmest.
  ghost predicate Calmest(rows: seq<Row>, score: Score, reset: int, span: nat, n: nat, k: nat) {
    && k < n
    && CandidateScore(rows, score, reset, span, k).Some?
    && forall j: nat :: j < n && CandidateScore(rows, score, reset, span, j).Some? ==>
         var mine := CandidateScore(rows, score, reset, span, k).value;
         var other := CandidateScore(rows, score, reset, span, j).value;
         mine <= other && (j < k ==> mine < other)
  }

  // The number of candidates is fixed by the interval.
  ghost predicate CountsCandidates(reset: int, start: int, span: nat, n: nat) {
    forall k: nat :: IsCandidate(reset, start, span, k) <==> k < n
  }

  lemma CandidatesAscend(reset: int, span: nat, j: nat, k: nat)
    requires j < k
    ensures Candidate(reset, span, j) + (k - j) <= Candidate(reset, span, k)
  {
    var step := Step(span);
    assert k * step == j * step + (k - j) * step;
    assert (k - j) * step >= (k - j) * 1;
  }

  lemma FirstCandidate(rows: seq<Row>, score: Score, reset: int, span: nat)
    ensures Candidate(reset, span, 0) == reset
    ensures Leads(rows, score, reset, span, 0, None)
  {
  }

  lemma NextCandidate(reset: int, span: nat, k: nat)
    ensures Candidate(reset, span, k + 1) == Candidate(reset, span, k) + Step(span)
  {
  }

  ghost predicate IsQuietWindow(rows: seq<Row>, start: int, reset: int, span: nat, score: Score, window: (int, int)) {
    if start - reset <= span then window == (reset, start)
    else
      exists n: nat :: CountsCandidates(reset, start, span, n)
        && if exists k: nat :: k < n && CandidateScore(rows, score, reset, span, k).Some?
           then
             exists k: nat :: Calmest(rows, score, reset, span, n, k)
               && window == (Candidate(reset, span, k), Candidate(reset, span, k) + span)
           else window == (start - span, start)
  }

  // The best of the first n candidates so far, if any of them has data.
  ghost predicate Leads(rows: seq<Row>, score: Score, reset: int, span: nat, n: nat, chosen: Option<nat>) {
    match chosen
    case None => forall k: nat :: k < n ==> CandidateScore(rows, score, reset, span, k).None?
    case Some(k) => Calmest(rows, score, reset, span, n, k)
  }

  lemma LeadPasses(rows: seq<Row>, score: Score, reset: int, span: nat, n: nat, chosen: Option<nat>)
    requires Leads(rows, score, reset, span, n, chosen)
    ensures var next := CandidateScore(rows, score, reset, span, n);
            var overtakes :=
              && next.Some?
              && (chosen.None? || next.value < CandidateScore(rows, score, reset, span, chosen.value).value);
            Leads(rows, score, reset, span, n + 1, if overtakes then Some(n) else chosen)
  {
    hide CandidateScore;
  }

  lemma CountOf(reset: int, start: int, span: nat, n: nat)
    requires !IsCandidate(reset, start, span, n)
    requires n > 0 ==> IsCandidate(reset, start, span, n - 1)
    ensures CountsCandidates(reset, start, span, n)
  {
    forall k: nat
      ensures IsCandidate(reset, start, span, k) <==> k < n
    {
      if n < k {
        CandidatesAscend(reset, span, n, k);
      } else if k < n - 1 {
        CandidatesAscend(reset, span, k, n - 1);
      }
    }
  }

  lemma IsWhole(rows: seq<Row>, start: int, reset: int, span: nat, score: Score)
    requires start - reset <= span
    ensures IsQuietWindow(rows, start, reset, span, score, (reset, start))
  {
  }

  lemma IsFallback(rows: seq<Row>, start: int, reset: int, span: nat, score: Score, n: nat)
    requires start - reset > span && CountsCandidates(reset, start, span, n)
    requires Leads(rows, score, reset, span, n, None)
    ensures IsQuietWindow(rows, start, reset, span, score, (start - span, start))
  {
    hide CandidateScore, CountsCandidates, Candidate;
  }

  lemma IsWinner(rows: seq<Row>, start: int, reset: int, span: nat, score: Score, n: nat, k: nat)
    requires start - reset > span && CountsCandidates(reset, start, span, n)
    requires Leads(rows, score, reset, span, n, Some(k))
    ensures IsQuietWindow(rows, start, reset, span, score,
                          (Candidate(reset, span, k), Candidate(reset, span, k) + span))
  {
    hide CandidateScore, CountsCandidates, Candidate;
  }

  // The running best is candidate k, with its score.
  ghost predicate Matches(rows: seq<Row>, score: Score, reset: int, start: int, span: nat, best: (real, int, int),
                          k: nat) {
    && CandidateScore(rows, score, reset, span, k) == Some(best.0)
    && best.1 == Candidate(reset, span, k)
    && best.2 == best.1 + span
    && reset <= best.1 && best.2 <= start
  }

  lemma ScoredAs(rows: seq<Row>, score: Score, reset: int, start: int, span: nat, k: nat)
    ensures var left := Candidate(reset, span, k);
            var values := Sorted(score(Selected(rows, left, left + span)));
            CandidateScore(rows, score, reset, span, k) == if values == [] then None else Some(values[|values| / 2])
    ensures IsCandidate(reset, start, span, k) <==> Candidate(reset, span, k) + span <= start
  {
  }

  method QuietBaselineWindow(rows: seq<Row>, start: int, reset: int, span: nat, score: Score)
    returns (window: (int, int))
    ensures IsQuietWindow(rows, start, reset, span, score, window)
    ensures reset <= start ==> reset <= window.0 <= window.1 <= start
    ensures span < start - reset ==> window.1 - window.0 == span
  {
    hide IsQuietWindow, Candidate, CandidateScore, Leads, Calmest, CountsCandidates, IsCandidate;
    hide UpperMedian, Selected, Sorted, Truncate;
    if start - reset <= span {
      IsWhole(rows, start, reset, span, score);
      return (reset, start);
    }
    FirstCandidate(rows, score, reset, span);
    var best: Option<(real, int, int)> := None;
    var left := reset;
    ghost var n: nat := 0;
    ghost var chosen: Option<nat> := None;
    while left + span <= start
      invariant left == Candidate(reset, span, n) && reset <= left
      invariant n > 0 ==> IsCandidate(reset, start, span, n - 1)
      invariant Leads(rows, score, reset, span, n, chosen)
      invariant best.None? <==> chosen.None?
      invariant best.Some? ==> Matches(rows, score, reset, start, span, best.value, chosen.value)
      decreases start - left
    {
      var selected := Window(rows, left, left + span);
      var values := Sorted(score(selected));
      ScoredAs(rows, score, reset, start, span, n);
      LeadPasses(rows, score, reset, span, n, chosen);
      NextCandidate(reset, span, n);
      if values != [] {
        var candidate := values[|values| / 2];
        if best.None? || candidate < best.value.0 {
          best := Some((candidate, left, left + span));
          chosen := Some(n);
        }
      }
      left := left + (if span / 2 > 1 then span / 2 else 1);
      n := n + 1;
    }
    ScoredAs(rows, score, reset, start, span, n);
    CountOf(reset, start, span, n);
    if best.None? {
      IsFallback(rows, start, reset, span, score, n);
      return (start - span, start);
    }
    IsWinner(rows, start, reset, span, score, n, chosen.value);
    return (best.value.1, best.value.2);
  }

  // The left ends the search tries: from the reset in steps of half the span, or
  // of one nanosecond when that is less, while the span fits before the start.
  ghost predicate Tried(reset: int, start: int, span: nat, left: int) {
    left + span <= start && exists k: nat :: StepsTo(reset, span, k, left)
  }

  ghost predicate StepsTo(reset: int, span: nat, k: nat, left: int) {
    if span < 2 then left == reset + k else left == reset + k * (span / 2)
  }

  lemma TriedIsCandidate(reset: int, start: int, span: nat, left: int)
    ensures Tried(reset, start, span, left) <==> exists k: nat :: IsCandidate(reset, start, span, k)
                                                                  && Candidate(reset, span, k) == left
  {
    forall k: nat
      ensures StepsTo(reset, span, k, left) <==> Candidate(reset, span, k) == left
    {
      assert Step(span) == if span < 2 then 1 else span / 2;
    }
  }

  // Read off the left ends tried: the window is the last stretch when none of
  // them holds data, and otherwise a stretch no other is calmer than, with every
  // equally calm one later.
  lemma {:induction false} QuietestOfTried(rows: seq<Row>, start: int, reset: int, span: nat, score: Score,
                                           window: (int, int), left: int)
    requires IsQuietWindow(rows, start, reset, span, score, window) && start - reset > span
    requires Tried(reset, start, span, left) && Calm(rows, score, left, left + span).Some?
    ensures Tried(reset, start, span, window.0) && window.1 == window.0 + span
    ensures var mine, other := Calm(rows, score, window.0, window.1), Calm(rows, score, left, left + span);
            mine.Some? && mine.value <= other.value && (left < window.0 ==> mine.value < other.value)
  {
    TriedIsCandidate(reset, start, span, left);
    hide Candidate, Calm, Tried;
    var j: nat :| IsCandidate(reset, start, span, j) && Candidate(reset, span, j) == left;
    assert CandidateScore(rows, score, reset, span, j).Some?;
    var n: nat, k: nat :| CountsCandidates(reset, start, span, n) && Calmest(rows, score, reset, span, n, k)
                          && window == (Candidate(reset, span, k), Candidate(reset, span, k) + span);
    assert IsCandidate(reset, start, span, k);
    TriedIsCandidate(reset, start, span, window.0);
    if k < j {
      CandidatesAscend(reset, span, k, j);
    }
  }

  lemma {:induction false} FallsBackWithoutData(rows: seq<Row>, start: int, reset: int, span: nat, score: Score,
                                                window: (int, int))
    requires IsQuietWindow(rows, start, reset, span, score, window) && start - reset > span
    requires forall left :: Tried(reset, start, span, left) ==> Calm(rows, score, left, left + span).None?
    ensures window == (start - span, start)
  {
    hide Candidate, Calm, Tried;
    var n: nat :| CountsCandidates(reset, start, span, n)
                  && if exists k: nat :: k < n && CandidateScore(rows, score, reset, span, k).Some?
                     then
                       exists k: nat :: Calmest(rows, score, reset, span, n, k)
                         && window == (Candidate(reset, span, k), Candidate(reset, span, k) + span)
                     else window == (start - span, start);
    forall k: nat | k < n
      ensures CandidateScore(rows, score, reset, span, k).None?
    {
      assert IsCandidate(reset, start, span, k);
      TriedIsCandidate(reset, start, span, Candidate(reset, span, k));
    }
  }

  // A row is inside when its time, cut down to whole nanoseconds, is.
  lemma InsideWhen(row: Row, low: int, high: int)
    ensures Inside(row, low, high)
       <==> row.wallTime.Some? && exists whole :: low <= whole <= high && CutTo(row.wallTime.value, whole)
  {
    if row.wallTime.Some? {
      var value := row.wallTime.value;
      assert CutTo(value, Truncate(value));
      forall whole | CutTo(value, whole)
        ensures whole == Truncate(value)
      {
      }
    }
  }

  // What is left of a number without its fraction, towards zero.
  ghost predicate CutTo(value: real, whole: int) {
    if value >= 0.0 then whole as real <= value < whole as real + 1.0
    else whole as real - 1.0 < value <= whole as real
  }

  // The window is determined by the rows and the interval.
  lemma QuietWindowUnique(rows: seq<Row>, start: int, reset: int, span: nat, score: Score, a: (int, int), b: (int, int))
    requires IsQuietWindow(rows, start, reset, span, score, a) && IsQuietWindow(rows, start, reset, span, score, b)
    ensures a == b
  {
    hide CandidateScore, Candidate, IsCandidate;
    if start - reset > span {
      var n: nat :| CountsCandidates(reset, start, span, n)
        && if exists k: nat :: k < n && CandidateScore(rows, score, reset, span, k).Some?
           then
             exists k: nat :: Calmest(rows, score, reset, span, n, k)
               && a == (Candidate(reset, span, k), Candidate(reset, span, k) + span)
           else a == (start - span, start);
      var m: nat :| CountsCandidates(reset, start, span, m)
        && if exists k: nat :: k < m && CandidateScore(rows, score, reset, span, k).Some?
           then
             exists k: nat :: Calmest(rows, score, reset, span, m, k)
               && b == (Candidate(reset, span, k), Candidate(reset, span, k) + span)
           else b == (start - span, start);
      assert n == m by {
        assert IsCandidate(reset, start, span, n) <==> n < m;
        assert IsCandidate(reset, start, span, m) <==> m < n;
      }
      if exists k: nat :: k < n && CandidateScore(rows, score, reset, span, k).Some? {
        var j: nat :| Calmest(rows, score, reset, span, n, j)
          && a == (Candidate(reset, span, j), Candidate(reset, span, j) + span);
        var k: nat :| Calmest(rows, score, reset, span, n, k)
          && b == (Candidate(reset, span, k), Candidate(reset, span, k) + span);
        assert j == k;
      }
    }
  }
}
