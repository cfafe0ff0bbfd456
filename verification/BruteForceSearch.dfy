// The definition the nearest-neighbour scores are held against: the mean of the
// k smallest squared distances to the frames outside an excluded set, and what
// ranking or partitioning a row of distances has to do with it.
module BruteForceSearch {
  import opened NearestFirst
  import opened Permutations

  type Vec = seq<real>

  // ------------------------------------------------------ squared distances

  function Dot(a: Vec, b: Vec): real
    requires |a| == |b|
  {
    if a == [] then 0.0 else a[0] * b[0] + Dot(a[1..], b[1..])
  }

  // The sum of squared differences.
  function SquaredDistance(a: Vec, b: Vec): real
    requires |a| == |b|
  {
    if a == [] then 0.0 else (a[0] - b[0]) * (a[0] - b[0]) + SquaredDistance(a[1..], b[1..])
  }

  // The form the script computes: the expanded square, clamped at zero.
  function ExpandedDistance(a: Vec, b: Vec): real
    requires |a| == |b|
  {
    var square := Dot(a, a) + Dot(b, b) - 2.0 * Dot(a, b);
    if square < 0.0 then 0.0 else square
  }

  lemma SquareOfDifference(x: real, y: real)
    ensures (x - y) * (x - y) == x * x + y * y - 2.0 * (x * y)
    ensures (x - y) * (x - y) >= 0.0
  {
  }

  // Over the reals the clamp is idle and the two forms are equal.
  lemma {:induction false} ExpandedIsExact(a: Vec, b: Vec)
    requires |a| == |b|
    ensures Dot(a, a) + Dot(b, b) - 2.0 * Dot(a, b) == SquaredDistance(a, b) >= 0.0
    ensures ExpandedDistance(a, b) == SquaredDistance(a, b)
  {
    if a != [] {
      ExpandedIsExact(a[1..], b[1..]);
      SquareOfDifference(a[0], b[0]);
    }
  }

  // ------------------------------------------------------------ brute force

  ghost predicate Frames(cloud: seq<Vec>, dim: nat) {
    forall c :: 0 <= c < |cloud| ==> |cloud[c]| == dim
  }

  // Frame i's row: true squared distances, infinite on the excluded columns.
  ghost function RowOutside(cloud: seq<Vec>, dim: nat, i: nat, excluded: set<int>): (row: seq<Distance>)
    requires Frames(cloud, dim) && i < |cloud|
    ensures |row| == |cloud|
  {
    seq(|cloud|, c requires 0 <= c < |cloud| =>
      if c in excluded then Infinite else Finite(SquaredDistance(cloud[i], cloud[c])))
  }

  // The distances from frame i to the frames that are not excluded among the
  // first n, and nothing else.
  ghost function Outside(cloud: seq<Vec>, dim: nat, i: nat, excluded: set<int>, n: nat): seq<Distance>
    requires Frames(cloud, dim) && i < |cloud| && n <= |cloud|
  {
    if n == 0 then []
    else
      Outside(cloud, dim, i, excluded, n - 1)
      + (if n - 1 in excluded then [] else [Finite(SquaredDistance(cloud[i], cloud[n - 1]))])
  }

  // The definition: the mean of the k smallest squared distances to frames that
  // are not excluded, infinite when there are fewer than k such frames.
  ghost function Nearest(cloud: seq<Vec>, dim: nat, i: nat, excluded: set<int>, k: nat): Distance
    requires Frames(cloud, dim) && i < |cloud| && k > 0
  {
    var outside := Sorted(Outside(cloud, dim, i, excluded, |cloud|));
    if |outside| < k then Infinite else Mean(outside[..k])
  }

  ghost function Finites(row: seq<Distance>): seq<Distance> {
    if row == [] then []
    else if row[|row| - 1].Finite? then Finites(row[..|row| - 1]) + [row[|row| - 1]]
    else Finites(row[..|row| - 1])
  }

  ghost function Infinities(row: seq<Distance>): (r: seq<Distance>)
    ensures forall x :: x in r ==> x.Infinite?
  {
    if row == [] then []
    else if row[|row| - 1].Finite? then Infinities(row[..|row| - 1])
    else Infinities(row[..|row| - 1]) + [Infinite]
  }

  lemma SnocMultiset(s: seq<Distance>, x: Distance)
    ensures multiset(s + [x]) == multiset(s) + multiset{x}
  {
  }

  lemma AddOne(all: multiset<Distance>, f: multiset<Distance>, g: multiset<Distance>, x: Distance)
    requires all == f + g
    ensures all + multiset{x} == (f + multiset{x}) + g
    ensures all + multiset{x} == f + (g + multiset{x})
  {
  }

  lemma NoneSplit()
    ensures Finites([]) == [] && Infinities([]) == []
  {
  }

  lemma LastSplit(row: seq<Distance>)
    requires row != []
    ensures var front, x := row[..|row| - 1], row[|row| - 1];
            && Finites(row) == (if x.Finite? then Finites(front) + [x] else Finites(front))
            && Infinities(row) == (if x.Finite? then Infinities(front) else Infinities(front) + [x])
  {
  }

  lemma {:induction false} FinitesAndInfinities(row: seq<Distance>)
    ensures multiset(row) == multiset(Finites(row)) + multiset(Infinities(row))
  {
    hide Finites, Infinities;
    if row == [] {
      NoneSplit();
    } else {
      var front, x := row[..|row| - 1], row[|row| - 1];
      FinitesAndInfinities(front);
      SnocMultiset(front, x);
      assert row == front + [x];
      AddOne(multiset(front), multiset(Finites(front)), multiset(Infinities(front)), x);
      LastSplit(row);
      SnocMultiset(Finites(front), x);
      SnocMultiset(Infinities(front), x);
    }
  }

  // What is finite in the row is what the definition ranks.
  lemma {:induction false} RowFinitesAreOutside(cloud: seq<Vec>, dim: nat, i: nat, excluded: set<int>, n: nat)
    requires Frames(cloud, dim) && i < |cloud| && n <= |cloud|
    ensures Finites(RowOutside(cloud, dim, i, excluded)[..n]) == Outside(cloud, dim, i, excluded, n)
    decreases n
  {
    if n > 0 {
      RowFinitesAreOutside(cloud, dim, i, excluded, n - 1);
      var row := RowOutside(cloud, dim, i, excluded);
      assert row[..n][..n - 1] == row[..n - 1];
    }
  }

  lemma SortedUnique(a: seq<Distance>, b: seq<Distance>)
    requires IsSorted(a) && IsSorted(b) && multiset(a) == multiset(b)
    ensures a == b
  {
    assert |a| == |multiset(a)| == |multiset(b)| == |b|;
    forall k | 0 <= k < |a|
      ensures a[k] == b[k]
    {
      HeadsAgree(a, b, k);
      HeadsAgree(a, b, k + 1);
      NextAgrees(a, b, k);
    }
  }

  lemma RankedFinitesFirst(row: seq<Distance>)
    ensures Sorted(row) == Sorted(Finites(row)) + Infinities(row)
  {
    var ranked := Sorted(Finites(row)) + Infinities(row);
    SortedIsSorted(Finites(row));
    SortedIsSorted(row);
    forall a, b | 0 <= a <= b < |ranked|
      ensures Le(ranked[a], ranked[b])
    {
      if b >= |Finites(row)| {
        assert ranked[b] in Infinities(row);
      }
    }
    FinitesAndInfinities(row);
    SortedUnique(Sorted(row), ranked);
  }

  // Ranking the row is ranking the frames that are not excluded.
  lemma {:induction false} SortedRowIsNearest(cloud: seq<Vec>, dim: nat, i: nat, excluded: set<int>, k: nat)
    requires Frames(cloud, dim) && i < |cloud| && 0 < k <= |cloud|
    ensures Mean(Sorted(RowOutside(cloud, dim, i, excluded))[..k]) == Nearest(cloud, dim, i, excluded, k)
  {
    var row := RowOutside(cloud, dim, i, excluded);
    RowFinitesAreOutside(cloud, dim, i, excluded, |cloud|);
    assert row[..|cloud|] == row;
    RankedFinitesFirst(row);
    MeanOfRanked(Sorted(Finites(row)), Infinities(row), k);
  }

  lemma MeanOfRanked(ranked: seq<Distance>, rest: seq<Distance>, k: nat)
    requires 0 < k <= |ranked| + |rest| && forall x :: x in rest ==> x.Infinite?
    ensures Mean((ranked + rest)[..k]) == if |ranked| < k then Infinite else Mean(ranked[..k])
  {
    var head := (ranked + rest)[..k];
    if |ranked| < k {
      assert head[|ranked|] == rest[0] && rest[0] in rest;
      SumInfinite(head);
    } else {
      assert head == ranked[..k];
    }
  }

  // A sorted row begins with its least entry.
  lemma LeastFirst(row: seq<Distance>)
    requires row != []
    ensures Sorted(row)[0] in row
    ensures forall c :: 0 <= c < |row| ==> Le(Sorted(row)[0], row[c])
  {
    var s := Sorted(row);
    SortedIsSorted(row);
    hide Sorted, Le;
    assert s[0] in multiset(row);
    forall c | 0 <= c < |row|
      ensures Le(s[0], row[c])
    {
      assert row[c] in multiset(s);
      var at :| 0 <= at < |s| && s[at] == row[c];
      assert Le(s[0], s[at]);
    }
  }

  // The nearest frame is at distance zero exactly when one outside is.
  lemma {:induction false} NearestAtZero(cloud: seq<Vec>, dim: nat, i: nat, excluded: set<int>)
    requires Frames(cloud, dim) && i < |cloud|
    ensures Nearest(cloud, dim, i, excluded, 1) == Finite(0.0)
       <==> exists c :: 0 <= c < |cloud| && c !in excluded && SquaredDistance(cloud[i], cloud[c]) == 0.0
  {
    hide Sorted, Nearest, Mean, SquaredDistance;
    var row := RowOutside(cloud, dim, i, excluded);
    SortedRowIsNearest(cloud, dim, i, excluded, 1);
    MeanOfOne(Sorted(row));
    LeastFirst(row);
    var least :| 0 <= least < |row| && row[least] == Sorted(row)[0];
    assert least !in excluded ==> row[least] == Finite(SquaredDistance(cloud[i], cloud[least]));
    forall c | 0 <= c < |cloud| && c !in excluded && SquaredDistance(cloud[i], cloud[c]) == 0.0
      ensures Sorted(row)[0] == Finite(0.0)
    {
      assert row[c] == Finite(0.0);
      ExpandedIsExact(cloud[i], cloud[least]);
    }
  }

  // ------------------------------------------------------- partitioned rows

  lemma HeadMeanExact(row: seq<Distance>, part: seq<Distance>, kMax: nat, k: nat)
    requires 0 < k <= kMax <= |row| && IsPartition(row, part, kMax - 1) && k >= kMax - 1
    ensures Mean(part[..k]) == Mean(Sorted(row)[..k])
  {
    HeadSumExact(row, part, kMax - 1, k);
  }

  lemma MeanBetween(low: seq<Distance>, head: seq<Distance>, high: seq<Distance>)
    requires |low| == |head| == |high| > 0 && Le(Sum(low), Sum(head)) && Le(Sum(head), Sum(high))
    ensures Le(Mean(low), Mean(head)) && Le(Mean(head), Mean(high))
  {
    hide Le, Sum, Mean;
    MeanMonotone(low, head);
    MeanMonotone(head, high);
  }

  lemma HeadMeanBracket(row: seq<Distance>, part: seq<Distance>, kth: nat, k: nat)
    requires 0 < k <= kth < |row| == |part| && IsPartition(row, part, kth)
    ensures Le(Mean(Sorted(row)[..k]), Mean(part[..k]))
    ensures Le(Mean(part[..k]), Mean(Sorted(row)[kth - k..kth]))
  {
    hide Le, Sum, Mean, Sorted, IsPartition;
    HeadSumBracket(row, part, kth, k);
    MeanBetween(Sorted(row)[..k], part[..k], Sorted(row)[kth - k..kth]);
  }

  lemma HeadMeans(row: seq<Distance>, part: seq<Distance>, kMax: nat, k: nat)
    requires 0 < k <= kMax <= |row| == |part| && IsPartition(row, part, kMax - 1)
    ensures k >= kMax - 1 ==> Mean(part[..k]) == Mean(Sorted(row)[..k])
    ensures k < kMax ==> Le(Mean(Sorted(row)[..k]), Mean(part[..k]))
    ensures k < kMax ==> Le(Mean(part[..k]), Mean(Sorted(row)[kMax - 1 - k..kMax - 1]))
  {
    hide Mean, Le, Sorted, IsPartition;
    if k >= kMax - 1 {
      HeadMeanExact(row, part, kMax, k);
    }
    if k < kMax {
      HeadMeanBracket(row, part, kMax - 1, k);
    }
  }

  lemma MeanMonotone(a: seq<Distance>, b: seq<Distance>)
    requires |a| == |b| > 0 && Le(Sum(a), Sum(b))
    ensures Le(Mean(a), Mean(b))
  {
  }

  // Every lawful partition gives the first k entries this mean.
  ghost predicate ShortHeadMeans(row: seq<Distance>, kth: nat, k: nat, want: Distance)
    requires 0 < k <= kth < |row|
  {
    forall part :: IsPartition(row, part, kth) ==> Mean(part[..k]) == want
  }

  lemma RowExactWhenTied(row: seq<Distance>, kth: nat, k: nat)
    requires 0 < k < kth < |row|
    ensures ShortHeadMeans(row, kth, k, Mean(Sorted(row)[..k]))
       <==> Mean(Sorted(row)[..k]).Infinite? || Sorted(row)[0] == Sorted(row)[kth - 1]
  {
    ShortHeadExactWhenTied(row, kth, k);
    forall part | IsPartition(row, part, kth)
      ensures Mean(part[..k]) == Mean(Sorted(row)[..k]) <==> Sum(part[..k]) == Sum(Sorted(row)[..k])
    {
      MeanInjective(part[..k], Sorted(row)[..k]);
    }
  }

  // A head shorter than kMax - 1 is not the brute-force mean for every lawful
  // partition: it is exactly when the kMax - 1 nearest entries tie, or when
  // fewer than k frames remain and both are infinite.
  lemma {:induction false} SmallKExactWhenTied(cloud: seq<Vec>, dim: nat, i: nat, excluded: set<int>, kMax: nat, k: nat)
    requires Frames(cloud, dim) && i < |cloud| && 0 < k < kMax - 1 && kMax <= |cloud|
    ensures ShortHeadMeans(RowOutside(cloud, dim, i, excluded), kMax - 1, k, Nearest(cloud, dim, i, excluded, k))
       <==> || Nearest(cloud, dim, i, excluded, k).Infinite?
            || Nearest(cloud, dim, i, excluded, 1) == Sorted(RowOutside(cloud, dim, i, excluded))[kMax - 2]
  {
    hide Mean, Sorted, Nearest, RowOutside, ShortHeadMeans;
    var row, kth := RowOutside(cloud, dim, i, excluded), kMax - 1;
    SortedRowIsNearest(cloud, dim, i, excluded, k);
    SortedRowIsNearest(cloud, dim, i, excluded, 1);
    MeanOfOne(Sorted(row));
    RowExactWhenTied(row, kth, k);
  }

  lemma MeanOfOne(s: seq<Distance>)
    requires s != []
    ensures Mean(s[..1]) == s[0]
  {
    assert s[..1][1..] == [] && |s[..1]| as real == 1.0;
    assert Sum(s[..1]) == Plus(s[0], Finite(0.0)) == s[0];
    match s[0] {
      case Finite(x) => assert x / 1.0 == x;
      case Infinite =>
    }
  }

  lemma MeanInjective(a: seq<Distance>, b: seq<Distance>)
    requires |a| == |b| > 0
    ensures Mean(a) == Mean(b) <==> Sum(a) == Sum(b)
  {
    match (Sum(a), Sum(b)) {
      case (Finite(x), Finite(y)) =>
        DivideInjective(x, y, |a| as real);
        assert Mean(a) == Finite(x / |a| as real) && Mean(b) == Finite(y / |a| as real);
      case _ =>
    }
  }

  lemma DivideInjective(x: real, y: real, n: real)
    requires n > 0.0
    ensures x / n == y / n <==> x == y
  {
    assert x == (x / n) * n && y == (y / n) * n;
  }

  // ------------------------------------------------- the frames a mean is over

  function Total(terms: seq<real>): real {
    if terms == [] then 0.0 else terms[0] + Total(terms[1..])
  }

  function DistancesTo(cloud: seq<Vec>, dim: nat, i: nat, picked: seq<int>): (terms: seq<real>)
    requires Frames(cloud, dim) && i < |cloud|
    requires forall p :: 0 <= p < |picked| ==> 0 <= picked[p] < |cloud|
    ensures |terms| == |picked|
  {
    seq(|picked|, p requires 0 <= p < |picked| => SquaredDistance(cloud[i], cloud[picked[p]]))
  }

  // Distinct frames, none excluded, and no other frame nearer than one of them.
  ghost predicate NearestFrames(cloud: seq<Vec>, dim: nat, i: nat, excluded: set<int>, picked: seq<int>)
    requires Frames(cloud, dim) && i < |cloud|
  {
    && (forall p :: 0 <= p < |picked| ==> 0 <= picked[p] < |cloud| && picked[p] !in excluded)
    && (forall p, q :: 0 <= p < q < |picked| ==> picked[p] != picked[q])
    && (forall p, c :: 0 <= p < |picked| && 0 <= c < |cloud| && c !in excluded && c !in picked ==>
          SquaredDistance(cloud[i], cloud[picked[p]]) <= SquaredDistance(cloud[i], cloud[c]))
  }

  ghost function Others(n: nat, excluded: set<int>): set<int> {
    set c | 0 <= c < n && c !in excluded
  }

  // Two rows with the same entries are rearrangements of each other.
  lemma {:induction false} ArrangementOf(a: seq<Distance>, b: seq<Distance>) returns (p: seq<int>)
    requires multiset(a) == multiset(b)
    ensures |p| == |b| == |a| && IsPermutation(p)
    ensures forall k :: 0 <= k < |b| ==> b[k] == a[p[k]]
    decreases |b|
  {
    if b == [] {
      assert |a| == |multiset(a)| == 0;
      return [];
    }
    var i := FirstTaken(a, b);
    var q := ArrangementOf(Without(a, i), b[1..]);
    WithoutSkips(a, i, q);
    hide Without, Skipping, IsPermutation;
    p := [i] + Skipping(q, i);
    forall k | 0 < k < |b|
      ensures b[k] == a[p[k]]
    {
      assert p[k] == Skipping(q, i)[k - 1] && b[k] == b[1..][k - 1];
    }
  }

  // Where the first entry of b stands in a, and what is left without it.
  lemma FirstTaken(a: seq<Distance>, b: seq<Distance>) returns (i: nat)
    requires multiset(a) == multiset(b) && b != []
    ensures i < |a| == |b| && a[i] == b[0] && multiset(Without(a, i)) == multiset(b[1..])
  {
    assert |a| == |multiset(a)| == |multiset(b)| == |b|;
    assert b[0] in multiset(a);
    i :| i < |a| && a[i] == b[0];
    WithoutMultiset(a, i);
    assert b == [b[0]] + b[1..];
  }

  // Indices into a row with entry i taken out, as indices into the row.
  ghost function Skipping(q: seq<int>, i: nat): (p: seq<int>)
    ensures |p| == |q|
  {
    seq(|q|, k requires 0 <= k < |q| => if q[k] < i then q[k] else q[k] + 1)
  }

  lemma WithoutSkips(a: seq<Distance>, i: nat, q: seq<int>)
    requires i < |a| && |q| == |a| - 1 && IsPermutation(q)
    ensures IsPermutation([i] + Skipping(q, i))
    ensures forall k :: 0 <= k < |q| ==> 0 <= Skipping(q, i)[k] < |a| && a[Skipping(q, i)[k]] == Without(a, i)[q[k]]
  {
  }

  lemma {:induction false} SumOfFinites(s: seq<Distance>, terms: seq<real>)
    requires |s| == |terms| && forall p :: 0 <= p < |s| ==> s[p] == Finite(terms[p])
    ensures Sum(s) == Finite(Total(terms))
  {
    if s != [] {
      SumOfFinites(s[1..], terms[1..]);
    }
  }

  // The first k of a row that splits at k are its k nearest frames, if there are
  // that many.
  lemma {:induction false} HeadPicks(cloud: seq<Vec>, dim: nat, i: nat, excluded: set<int>, part: seq<Distance>, k: nat)
    returns (picked: seq<int>)
    requires Frames(cloud, dim) && i < |cloud| && k <= |part|
    requires multiset(part) == multiset(RowOutside(cloud, dim, i, excluded)) && SplitsAt(part, k)
    ensures |picked| == k
    ensures |Others(|cloud|, excluded)| >= k ==>
              && NearestFrames(cloud, dim, i, excluded, picked)
              && Sum(part[..k]) == Finite(Total(DistancesTo(cloud, dim, i, picked)))
    ensures |Others(|cloud|, excluded)| < k ==> Sum(part[..k]) == Infinite
  {
    hide SquaredDistance;
    var row := RowOutside(cloud, dim, i, excluded);
    var p := ArrangementOf(row, part);
    picked := p[..k];
    HeadIsNearest(row, part, p, k);
    HeadIsOutside(row, p, k, Others(|cloud|, excluded));
    if |Others(|cloud|, excluded)| >= k {
      SumOfFinites(part[..k], DistancesTo(cloud, dim, i, picked));
    } else {
      var a :| 0 <= a < k && row[p[a]].Infinite?;
      assert part[..k][a].Infinite?;
      SumInfinite(part[..k]);
    }
  }

  lemma HeadIsNearest(row: seq<Distance>, part: seq<Distance>, p: seq<int>, k: nat)
    requires |p| == |row| == |part| && IsPermutation(p) && k <= |part| && SplitsAt(part, k)
    requires forall a :: 0 <= a < |part| ==> part[a] == row[p[a]]
    ensures forall a, c :: 0 <= a < k && 0 <= c < |row| && c !in p[..k] ==> Le(row[p[a]], row[c])
  {
    hide Le;
    forall a, c | 0 <= a < k && 0 <= c < |row| && c !in p[..k]
      ensures Le(row[p[a]], row[c])
    {
      PermutationIsOnto(p, c);
      var b :| 0 <= b < |p| && p[b] == c;
      InHead(p, k, b);
      assert Le(part[a], part[b]);
    }
  }

  lemma InHead(p: seq<int>, k: nat, b: nat)
    requires k <= |p| && b < |p|
    ensures b < k ==> p[b] in p[..k]
  {
    if b < k {
      assert p[..k][b] == p[b];
    }
  }

  lemma FiniteInHead(row: seq<Distance>, p: seq<int>, k: nat, a: nat)
    requires a < k <= |p| == |row| && 0 <= p[a] < |row| && row[p[a]].Infinite?
    requires forall c :: 0 <= c < |row| && c !in p[..k] ==> Le(row[p[a]], row[c])
    ensures forall c :: 0 <= c < |row| && row[c].Finite? ==> c in p[..k]
  {
  }

  // The k least entries are all finite exactly when k entries are.
  lemma HeadIsOutside(row: seq<Distance>, p: seq<int>, k: nat, others: set<int>)
    requires |p| == |row| && IsPermutation(p) && k <= |row|
    requires forall c :: c in others <==> 0 <= c < |row| && row[c].Finite?
    requires forall a, c :: 0 <= a < k && 0 <= c < |row| && c !in p[..k] ==> Le(row[p[a]], row[c])
    ensures |others| >= k <==> forall a :: 0 <= a < k ==> row[p[a]].Finite?
  {
    var head := set a | 0 <= a < k :: p[a];
    ImageSize(p, k);
    if forall a :: 0 <= a < k ==> row[p[a]].Finite? {
      SubsetSize(head, others);
    } else {
      var a :| 0 <= a < k && row[p[a]].Infinite?;
      FiniteInHead(row, p, k, a);
      forall c | c in others
        ensures c in head - {p[a]}
      {
        var b :| 0 <= b < k && p[..k][b] == c;
        assert p[b] in head;
      }
      SubsetSize(others, head - {p[a]});
    }
  }
}
