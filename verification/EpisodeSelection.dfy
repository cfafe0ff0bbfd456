// Which episodes a conversion run covers, and which exclusions it honoured.
module EpisodeSelection {
  import opened Outcome
  import opened Sequences

  datatype Choice = All | Range(start: int, stop: int)

  datatype SelectionError = StopBeyondDataset(stop: int) | ExcludedOutside(outside: seq<int>)

  datatype Selection = Selection(episodes: seq<int>, excluded: seq<int>)

  function Interval(low: int, high: int): (r: seq<int>)
    ensures Ascending(r)
    ensures forall x :: x in r <==> low <= x < high
    decreases high - low
  {
    if low >= high then []
    else
      var front := Interval(low, high - 1);
      assert forall i :: 0 <= i < |front| ==> front[i] in front;
      front + [high - 1]
  }

  function Insert(x: int, s: seq<int>): (r: seq<int>)
    requires Ascending(s)
    ensures Ascending(r)
    ensures forall y :: y in r <==> y == x || y in s
  {
    if s == [] then [x]
    else
      assert forall y :: y in s <==> y == s[0] || y in s[1..];
      if x < s[0] then [x] + s
      else if x == s[0] then s
      else
        var tail := Insert(x, s[1..]);
        assert forall y :: y in s[1..] ==> s[0] < y;
        assert forall y :: y in tail ==> s[0] < y;
        assert forall i :: 0 <= i < |tail| ==> tail[i] in tail;
        [s[0]] + tail
  }

  // `sorted(set(...))`.
  function SortedDistinct(s: seq<int>): (r: seq<int>)
    ensures Ascending(r)
    ensures forall y :: y in r <==> y in s
  {
    if s == [] then []
    else
      assert forall y :: y in s <==> y == s[0] || y in s[1..];
      Insert(s[0], SortedDistinct(s[1..]))
  }

  // The comprehension `[x for x in s if keep(x)]`.
  function Filter(s: seq<int>, keep: int -> bool): (r: seq<int>)
    ensures forall y :: y in r <==> y in s && keep(y)
  {
    if s == [] then []
    else
      var front, last := s[..|s| - 1], s[|s| - 1];
      assert forall y :: y in s <==> y == last || y in front;
      Filter(front, keep) + (if keep(last) then [last] else [])
  }

  lemma {:induction false} FilterAscends(s: seq<int>, keep: int -> bool)
    requires Ascending(s)
    ensures Ascending(Filter(s, keep))
  {
    if s != [] {
      var front, last := s[..|s| - 1], s[|s| - 1];
      FilterAscends(front, keep);
      var rest := Filter(front, keep);
      assert forall i :: 0 <= i < |rest| ==> rest[i] in front;
    }
  }

  ghost predicate InRange(total: int, choice: Choice, x: int) {
    if choice.All? then 0 <= x < total else choice.start <= x < choice.stop
  }

  // The outside check looks at every exclusion, the honoured list only at those
  // the range covers.
  function SelectEpisodes(total: int, choice: Choice, exclude: seq<int>): (r: Result<Selection, SelectionError>) {
    if choice.Range? && choice.stop > total then Failure(StopBeyondDataset(choice.stop))
    else
      var base := if choice.All? then Interval(0, total) else Interval(choice.start, choice.stop);
      var excluded := SortedDistinct(exclude);
      var outside := Filter(excluded, x => !(0 <= x < total));
      if outside != [] then Failure(ExcludedOutside(outside))
      else
        var honoured := Filter(excluded, x => x in base);
        Success(Selection(Filter(base, x => x !in honoured), honoured))
  }

  // When the selection fails, and with what.
  lemma SelectionFails(total: int, choice: Choice, exclude: seq<int>)
    ensures var r := SelectEpisodes(total, choice, exclude);
            if choice.Range? && choice.stop > total then r == Failure(StopBeyondDataset(choice.stop))
            else if exists x :: x in exclude && !(0 <= x < total) then
              && r.Failure? && r.error.ExcludedOutside? && Ascending(r.error.outside)
              && forall x :: x in r.error.outside <==> x in exclude && !(0 <= x < total)
            else r.Success?
  {
    var outside := Filter(SortedDistinct(exclude), x => !(0 <= x < total));
    FilterAscends(SortedDistinct(exclude), x => !(0 <= x < total));
    if outside != [] {
      assert outside[0] in outside;
    }
  }

  // Selected: exactly the episodes in range that are not excluded, ascending and
  // without repetition.  An exclusion merely outside the range is not reported.
  lemma SelectionIsExact(total: int, choice: Choice, exclude: seq<int>)
    ensures var r := SelectEpisodes(total, choice, exclude);
            r.Success? ==>
              && Ascending(r.value.episodes) && Ascending(r.value.excluded)
              && (forall x :: x in r.value.episodes <==> InRange(total, choice, x) && x !in exclude)
              && (forall x :: x in r.value.excluded <==> InRange(total, choice, x) && x in exclude)
  {
    var r := SelectEpisodes(total, choice, exclude);
    if r.Success? {
      var base := if choice.All? then Interval(0, total) else Interval(choice.start, choice.stop);
      assert forall x :: x in base <==> InRange(total, choice, x);
      FilterAscends(SortedDistinct(exclude), x => x in base);
      FilterAscends(base, x => x !in r.value.excluded);
      var honoured := r.value.excluded;
      assert forall x :: x in honoured <==> x in exclude && x in base;
    }
  }
}
