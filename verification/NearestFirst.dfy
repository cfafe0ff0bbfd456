// Squared distances with infinity, their sorting, and what `partition` fixes
// about a row: the smallest k as a multiset, and nothing about their order.
module NearestFirst {

  datatype Distance = Finite(square: real) | Infinite

  predicate Le(a: Distance, b: Distance) {
    b.Infinite? || (a.Finite? && a.square <= b.square)
  }

  function Plus(a: Distance, b: Distance): Distance {
    if a.Finite? && b.Finite? then Finite(a.square + b.square) else Infinite
  }

  function Sum(s: seq<Distance>): Distance {
    if s == [] then Finite(0.0) else Plus(s[0], Sum(s[1..]))
  }

  // `row.mean()`, infinite as soon as one entry is.
  function Mean(s: seq<Distance>): Distance
    requires s != []
  {
    match Sum(s)
    case Finite(total) => Finite(total / |s| as real)
    case Infinite => Infinite
  }

  // ---------------------------------------------------------------- sorting

  ghost predicate IsSorted(s: seq<Distance>) {
    forall i, j :: 0 <= i <= j < |s| ==> Le(s[i], s[j])
  }

  function Insert(x: Distance, s: seq<Distance>): (r: seq<Distance>)
    ensures multiset(r) == multiset(s) + multiset{x} && |r| == |s| + 1
  {
    if s == [] || Le(x, s[0]) then [x] + s
    else
      assert s == [s[0]] + s[1..];
      [s[0]] + Insert(x, s[1..])
  }

  lemma {:induction false} InsertKeepsSorted(x: Distance, s: seq<Distance>)
    requires IsSorted(s)
    ensures IsSorted(Insert(x, s))
  {
    var r := Insert(x, s);
    if s == [] || Le(x, s[0]) {
      assert forall i :: 0 <= i < |s| ==> Le(s[0], s[i]);
    } else {
      InsertKeepsSorted(x, s[1..]);
      forall j | 1 <= j < |r|
        ensures Le(r[0], r[j])
      {
        assert r[j] in multiset(r[1..]);
        assert r[j] == x || r[j] in s[1..];
      }
    }
  }

  function Sorted(s: seq<Distance>): (r: seq<Distance>)
    ensures multiset(r) == multiset(s) && |r| == |s|
  {
    if s == [] then []
    else
      assert s == [s[0]] + s[1..];
      Insert(s[0], Sorted(s[1..]))
  }

  lemma {:induction false} SortedIsSorted(s: seq<Distance>)
    ensures IsSorted(Sorted(s))
  {
    if s != [] {
      SortedIsSorted(s[1..]);
      InsertKeepsSorted(s[0], Sorted(s[1..]));
    }
  }

  // ------------------------------------------------------- sums and orderings

  lemma {:induction false} SumConcat(a: seq<Distance>, b: seq<Distance>)
    ensures Sum(a + b) == Plus(Sum(a), Sum(b))
  {
    if a == [] {
      assert a + b == b;
    } else {
      assert (a + b)[1..] == a[1..] + b;
      SumConcat(a[1..], b);
    }
  }

  function Without(s: seq<Distance>, i: nat): (r: seq<Distance>)
    requires i < |s|
    ensures |r| == |s| - 1
  {
    s[..i] + s[i + 1..]
  }

  lemma WithoutMultiset(s: seq<Distance>, i: nat)
    requires i < |s|
    ensures multiset(Without(s, i)) == multiset(s) - multiset{s[i]}
  {
    assert s == s[..i] + ([s[i]] + s[i + 1..]);
  }

  lemma {:induction false} SumRemove(s: seq<Distance>, i: nat)
    requires i < |s|
    ensures Sum(s) == Plus(s[i], Sum(Without(s, i)))
  {
    assert s == s[..i] + ([s[i]] + s[i + 1..]);
    SumConcat(s[..i], [s[i]] + s[i + 1..]);
    SumConcat([s[i]], s[i + 1..]);
    SumConcat(s[..i], s[i + 1..]);
    assert [s[i]][1..] == [];
  }

  // A sum does not depend on the order of its terms.
  lemma {:induction false} SumOfMultiset(a: seq<Distance>, b: seq<Distance>)
    requires multiset(a) == multiset(b)
    ensures Sum(a) == Sum(b)
    decreases |a|
  {
    assert |a| == |multiset(a)| == |multiset(b)| == |b|;
    if a != [] {
      assert a[0] in multiset(b);
      var i :| 0 <= i < |b| && b[i] == a[0];
      SumRemove(a, 0);
      SumRemove(b, i);
      WithoutMultiset(a, 0);
      WithoutMultiset(b, i);
      SumOfMultiset(Without(a, 0), Without(b, i));
    }
  }

  lemma DropBoth(x: seq<Distance>, i: nat, s: seq<Distance>, j: nat)
    requires i < |x| && j < |s| && x[i] == s[j] && multiset(x) <= multiset(s)
    ensures multiset(Without(x, i)) <= multiset(Without(s, j))
  {
    WithoutMultiset(x, i);
    WithoutMultiset(s, j);
  }

  lemma DropUnused(x: seq<Distance>, s: seq<Distance>, j: nat)
    requires j < |s| && s[j] !in x && multiset(x) <= multiset(s)
    ensures multiset(x) <= multiset(Without(s, j)) && |x| < |s|
  {
    WithoutMultiset(s, j);
    assert s[j] !in multiset(x);
    SubSize(multiset(x), multiset(Without(s, j)));
  }

  lemma SubSize(a: multiset<Distance>, b: multiset<Distance>)
    requires a <= b
    ensures |a| <= |b|
  {
    assert b == a + (b - a);
  }

  lemma PlusMonotone(a: Distance, b: Distance, c: Distance)
    requires Le(b, c)
    ensures Le(Plus(a, b), Plus(a, c))
  {
  }

  lemma LeTransitive(a: Distance, b: Distance, c: Distance)
    requires Le(a, b) && Le(b, c)
    ensures Le(a, c)
  {
  }

  // ------------------------------------------------------- the k smallest

  ghost predicate IsSmallest(all: multiset<Distance>, some: multiset<Distance>) {
    some <= all && forall x, y :: x in some && y in all - some ==> Le(x, y)
  }

  // Which k entries are the smallest is determined up to equal values.
  lemma SmallestUnique(all: multiset<Distance>, a: multiset<Distance>, b: multiset<Distance>)
    requires IsSmallest(all, a) && IsSmallest(all, b) && |a| == |b|
    ensures a == b
  {
    if a != b {
      var x := OnlyIn(a, b);
      var y := OnlyIn(b, a);
      assert x in all - b && y in all - a;
      LeAntisymmetric(x, y);
    }
  }

  // Of two different multisets of one size, each has an entry the other has
  // fewer of.
  lemma OnlyIn(a: multiset<Distance>, b: multiset<Distance>) returns (x: Distance)
    requires a != b && |a| == |b|
    ensures a[x] > b[x]
  {
    ProperSubSize(a, b);
    assert !(a <= b);
    x :| a[x] > b[x];
  }

  lemma ProperSubSize(a: multiset<Distance>, b: multiset<Distance>)
    ensures a <= b && a != b ==> |a| < |b|
  {
    if a <= b && a != b {
      var rest := b - a;
      assert b == a + rest;
      assert |b| == |a| + |rest|;
      assert rest != multiset{} by {
        var z :| a[z] != b[z];
        assert rest[z] > 0;
      }
    }
  }

  // What `partition(row, kth)` promises.
  ghost predicate IsPartition(row: seq<Distance>, part: seq<Distance>, kth: nat) {
    && kth < |row| == |part|
    && multiset(part) == multiset(row)
    && (forall i :: 0 <= i <= kth ==> Le(part[i], part[kth]))
    && (forall i :: kth <= i < |part| ==> Le(part[kth], part[i]))
  }

  // Nothing before position k exceeds anything from k on.
  ghost predicate SplitsAt(s: seq<Distance>, k: nat)
    requires k <= |s|
  {
    forall i, j :: 0 <= i < k <= j < |s| ==> Le(s[i], s[j])
  }

  lemma HeadIsSmallest(s: seq<Distance>, k: nat)
    requires k <= |s| && SplitsAt(s, k)
    ensures IsSmallest(multiset(s), multiset(s[..k]))
  {
    var head, tail := s[..k], s[k..];
    assert s == head + tail;
    forall x, y | x in multiset(head) && y in multiset(tail)
      ensures Le(x, y)
    {
      var i :| 0 <= i < |head| && head[i] == x;
      var j :| 0 <= j < |tail| && tail[j] == y;
      assert Le(s[i], s[k + j]);
    }
  }

  lemma HeadsAgree(a: seq<Distance>, b: seq<Distance>, k: nat)
    requires multiset(a) == multiset(b) && |a| == |b| && k <= |a|
    requires SplitsAt(a, k) && SplitsAt(b, k)
    ensures multiset(a[..k]) == multiset(b[..k])
  {
    HeadIsSmallest(a, k);
    HeadIsSmallest(b, k);
    SmallestUnique(multiset(a), multiset(a[..k]), multiset(b[..k]));
  }

  lemma NextAgrees(a: seq<Distance>, b: seq<Distance>, k: nat)
    requires k < |a| == |b|
    requires multiset(a[..k]) == multiset(b[..k]) && multiset(a[..k + 1]) == multiset(b[..k + 1])
    ensures a[k] == b[k]
  {
    assert a[..k + 1] == a[..k] + [a[k]] && b[..k + 1] == b[..k] + [b[k]];
    var head := multiset(a[..k]);
    assert head + multiset{a[k]} == head + multiset{b[k]};
    assert (head + multiset{a[k]})[a[k]] == head[a[k]] + 1;
    assert (head + multiset{b[k]})[a[k]] == head[a[k]] + multiset{b[k]}[a[k]];
  }

  lemma PartitionSplits(row: seq<Distance>, part: seq<Distance>, kth: nat)
    requires IsPartition(row, part, kth)
    ensures SplitsAt(part, kth) && SplitsAt(part, kth + 1)
  {
  }

  // The partitioned entry sits where sorting puts it, and what stands before
  // it, like what stands up to it, is the sorted head in some order.
  lemma {:induction false} PartitionHeads(row: seq<Distance>, part: seq<Distance>, kth: nat)
    requires IsPartition(row, part, kth)
    ensures multiset(part[..kth]) == multiset(Sorted(row)[..kth])
    ensures multiset(part[..kth + 1]) == multiset(Sorted(row)[..kth + 1])
    ensures part[kth] == Sorted(row)[kth]
  {
    SortedIsSorted(row);
    PartitionSplits(row, part, kth);
    HeadsAgree(part, Sorted(row), kth);
    HeadsAgree(part, Sorted(row), kth + 1);
    NextAgrees(part, Sorted(row), kth);
  }

  // ---------------------------------------------------------------- brackets

  lemma {:induction false} SumPointwise(a: seq<Distance>, b: seq<Distance>)
    requires |a| == |b| && forall i :: 0 <= i < |a| ==> Le(a[i], b[i])
    ensures Le(Sum(a), Sum(b))
    ensures Sum(a) == Sum(b) && Sum(b).Finite? ==> a == b
  {
    if a != [] {
      SumPointwise(a[1..], b[1..]);
      assert a == [a[0]] + a[1..] && b == [b[0]] + b[1..];
    }
  }

  // No k entries of a sorted row sum to less than its first k ...
  lemma {:induction false} AtLeastFirst(s: seq<Distance>, x: seq<Distance>)
    requires IsSorted(s) && multiset(x) <= multiset(s) && |x| <= |s|
    ensures Le(Sum(s[..|x|]), Sum(x))
    decreases |s|
  {
    hide Sum, Plus, Le, Without;
    var k := |x|;
    if k == 0 {
      assert x == s[..0];
      LeReflexive(Sum(x));
    } else {
      var tail := s[1..];
      WithoutFirst(s);
      FirstSteps(s, k);
      assert IsSorted(tail);
      if s[0] in x {
        var i :| 0 <= i < k && x[i] == s[0];
        DropBoth(x, i, s, 0);
        AtLeastFirst(tail, Without(x, i));
        SumRemove(x, i);
        PlusMonotone(s[0], Sum(tail[..k - 1]), Sum(Without(x, i)));
      } else {
        DropUnused(x, s, 0);
        AtLeastFirst(tail, x);
        LeTransitive(Sum(s[..k]), Sum(tail[..k]), Sum(x));
      }
    }
  }

  lemma WithoutFirst(s: seq<Distance>)
    requires s != []
    ensures Without(s, 0) == s[1..]
  {
  }

  // A head against the tail's: one entry more, or shifted by one.
  lemma FirstSteps(s: seq<Distance>, k: nat)
    requires IsSorted(s) && 0 < k <= |s|
    ensures Sum(s[..k]) == Plus(s[0], Sum(s[1..][..k - 1]))
    ensures k < |s| ==> Le(Sum(s[..k]), Sum(s[1..][..k]))
  {
    assert s[..k][1..] == s[1..][..k - 1];
    if k < |s| {
      hide Sum;
      SumPointwise(s[..k], s[1..][..k]);
    }
  }

  lemma SumOfLast(s: seq<Distance>, k: nat)
    requires 0 < k <= |s|
    ensures Sum(s[|s| - k..]) == Plus(s[|s| - 1], Sum(s[..|s| - 1][|s| - k..]))
  {
    var top := s[|s| - k..];
    SumRemove(top, k - 1);
    assert Without(top, k - 1) == s[..|s| - 1][|s| - k..];
  }

  lemma WithoutLast(s: seq<Distance>)
    requires s != []
    ensures Without(s, |s| - 1) == s[..|s| - 1]
  {
  }

  lemma LeReflexive(a: Distance)
    ensures Le(a, a)
  {
  }

  lemma LastOfFront(s: seq<Distance>, k: nat)
    requires IsSorted(s) && k < |s|
    ensures Le(Sum(s[..|s| - 1][|s| - 1 - k..]), Sum(s[|s| - k..]))
  {
    hide Sum;
    SumPointwise(s[..|s| - 1][|s| - 1 - k..], s[|s| - k..]);
  }

  // ... nor to more than its last k.
  lemma {:induction false} AtMostLast(s: seq<Distance>, x: seq<Distance>)
    requires IsSorted(s) && multiset(x) <= multiset(s) && |x| <= |s|
    ensures Le(Sum(x), Sum(s[|s| - |x|..]))
    decreases |s|
  {
    hide Sum, Plus, Le, Without;
    var k, n := |x|, |s|;
    if k == 0 {
      assert x == s[n..];
      LeReflexive(Sum(x));
    } else {
      var front, last := s[..n - 1], s[n - 1];
      WithoutLast(s);
      assert IsSorted(front);
      if last in x {
        var i :| 0 <= i < k && x[i] == last;
        DropBoth(x, i, s, n - 1);
        AtMostLast(front, Without(x, i));
        SumRemove(x, i);
        SumOfLast(s, k);
        PlusMonotone(last, Sum(Without(x, i)), Sum(front[n - k..]));
      } else {
        DropUnused(x, s, n - 1);
        AtMostLast(front, x);
        LastOfFront(s, k);
        LeTransitive(Sum(x), Sum(front[n - 1 - k..]), Sum(s[n - k..]));
      }
    }
  }

  lemma HeadOfHead(part: seq<Distance>, k: nat, kth: nat)
    requires k <= kth <= |part|
    ensures multiset(part[..k]) <= multiset(part[..kth])
  {
    assert part[..kth] == part[..k] + part[k..kth];
  }

  lemma SlicesOfHead(s: seq<Distance>, k: nat, kth: nat)
    requires k <= kth <= |s|
    ensures s[..kth][..k] == s[..k] && s[..kth][kth - k..] == s[kth - k..kth]
  {
  }

  // A shorter head of a partitioned row: some k of the kth entries in front of
  // the partitioned one, so its sum lies between their k smallest and their k
  // largest.
  lemma {:induction false} HeadSumBracket(row: seq<Distance>, part: seq<Distance>, kth: nat, k: nat)
    requires IsPartition(row, part, kth) && k <= kth
    ensures Le(Sum(Sorted(row)[..k]), Sum(part[..k]))
    ensures Le(Sum(part[..k]), Sum(Sorted(row)[kth - k..kth]))
  {
    SortedIsSorted(row);
    PartitionHeads(row, part, kth);
    HeadOfHead(part, k, kth);
    SlicesOfHead(Sorted(row), k, kth);
    AtLeastFirst(Sorted(row)[..kth], part[..k]);
    AtMostLast(Sorted(row)[..kth], part[..k]);
  }

  lemma PartitionLengths(row: seq<Distance>, part: seq<Distance>, kth: nat)
    requires IsPartition(row, part, kth)
    ensures |part| == |row|
  {
  }

  // The two heads that end at the partitioned entry are exact.
  lemma {:induction false} HeadSumExact(row: seq<Distance>, part: seq<Distance>, kth: nat, k: nat)
    requires IsPartition(row, part, kth) && kth <= k <= kth + 1
    ensures Sum(part[..k]) == Sum(Sorted(row)[..k])
  {
    PartitionLengths(row, part, kth);
    PartitionHeads(row, part, kth);
    hide Sum, Sorted, IsPartition;
    SumOfMultiset(part[..k], Sorted(row)[..k]);
  }

  // A sorted run whose k-shift looks the same throughout is constant.
  lemma {:induction false} ShiftConstant(s: seq<Distance>, n: nat, d: nat, i: nat)
    requires IsSorted(s) && 0 < d <= n <= |s| && i < n
    requires forall j :: 0 <= j < n - d ==> s[j] == s[j + d]
    requires d < n
    ensures s[i] == s[0]
    decreases i
  {
    if i <= d {
      assert s[0] == s[d];
      assert Le(s[0], s[i]) && Le(s[i], s[d]);
    } else {
      assert s[i - d] == s[i - d + d];
      ShiftConstant(s, n, d, i - d);
    }
  }

  // The same entries, with the k largest of the first kth in front.
  ghost function Adversarial(s: seq<Distance>, kth: nat, k: nat): seq<Distance>
    requires k <= kth < |s|
  {
    s[kth - k..kth] + s[..kth - k] + s[kth..]
  }

  lemma AdversarialMultiset(s: seq<Distance>, kth: nat, k: nat)
    requires k <= kth < |s|
    ensures multiset(Adversarial(s, kth, k)) == multiset(s)
  {
    var a, b, c := s[..kth - k], s[kth - k..kth], s[kth..];
    assert s == (a + b) + c;
    assert multiset(s) == multiset(a + b) + multiset(c) == multiset(a) + multiset(b) + multiset(c);
    assert multiset((b + a) + c) == multiset(b + a) + multiset(c) == multiset(b) + multiset(a) + multiset(c);
  }

  lemma AdversarialAt(s: seq<Distance>, kth: nat, k: nat, i: nat)
    requires k <= kth < |s| && i < |s|
    ensures Adversarial(s, kth, k)[i] == if i < k then s[kth - k + i] else if i < kth then s[i - k] else s[i]
  {
  }

  lemma AdversarialHead(s: seq<Distance>, kth: nat, k: nat)
    requires k <= kth < |s|
    ensures Adversarial(s, kth, k)[..k] == s[kth - k..kth]
  {
  }

  lemma AdversarialIsPartition(row: seq<Distance>, s: seq<Distance>, kth: nat, k: nat)
    requires k <= kth < |row| == |s| && IsSorted(s) && multiset(s) == multiset(row)
    ensures IsPartition(row, Adversarial(s, kth, k), kth)
  {
    AdversarialMultiset(s, kth, k);
    var part := Adversarial(s, kth, k);
    AdversarialAt(s, kth, k, kth);
    forall i: nat | i <= kth
      ensures Le(part[i], part[kth])
    {
      AdversarialAt(s, kth, k, i);
    }
    forall i: nat | kth <= i < |part|
      ensures Le(part[kth], part[i])
    {
      AdversarialAt(s, kth, k, i);
    }
  }

  lemma TiedHeads(s: seq<Distance>, kth: nat, k: nat)
    requires IsSorted(s) && 0 < k < kth < |s| && s[0] == s[kth - 1]
    ensures s[..k] == s[kth - k..kth]
  {
    forall i | 0 <= i < kth
      ensures s[i] == s[0]
    {
      assert Le(s[0], s[i]) && Le(s[i], s[kth - 1]);
    }
  }

  lemma {:induction false} EqualHeadsTie(s: seq<Distance>, kth: nat, k: nat)
    requires IsSorted(s) && 0 < k < kth < |s| && s[kth - 1].Finite?
    requires Sum(s[..k]) == Sum(s[kth - k..kth])
    ensures s[0] == s[kth - 1]
  {
    var low, high := s[..k], s[kth - k..kth];
    forall i | 0 <= i < k
      ensures Le(low[i], high[i]) && high[i].Finite?
    {
      assert Le(high[i], s[kth - 1]);
    }
    FiniteSum(high);
    SumPointwise(low, high);
    forall j | 0 <= j < k
      ensures s[j] == s[j + (kth - k)]
    {
      assert low[j] == high[j];
    }
    ShiftConstant(s, kth, kth - k, kth - 1);
  }

  // For a head strictly shorter than the partitioned position, the library's
  // contract pins the sum down exactly when all entries in front tie, or when
  // even the smallest sum is infinite.
  lemma {:induction false} ShortHeadExactWhenTied(row: seq<Distance>, kth: nat, k: nat)
    requires 0 < k < kth < |row|
    ensures (forall part :: IsPartition(row, part, kth) ==> Sum(part[..k]) == Sum(Sorted(row)[..k]))
       <==> Sum(Sorted(row)[..k]).Infinite? || Sorted(row)[0] == Sorted(row)[kth - 1]
  {
    var s := Sorted(row);
    SortedIsSorted(row);
    if Sum(s[..k]).Infinite? || s[0] == s[kth - 1] {
      if s[0] == s[kth - 1] {
        TiedHeads(s, kth, k);
      }
      forall part | IsPartition(row, part, kth)
        ensures Sum(part[..k]) == Sum(s[..k])
      {
        HeadSumBracket(row, part, kth, k);
        InfiniteOrBetween(Sum(s[..k]), Sum(part[..k]), Sum(s[kth - k..kth]));
      }
    } else {
      var adversarial := Adversarial(s, kth, k);
      AdversarialIsPartition(row, s, kth, k);
      AdversarialHead(s, kth, k);
      LastHeadDiffers(s, kth, k);
    }
  }

  lemma InfiniteOrBetween(low: Distance, x: Distance, high: Distance)
    requires Le(low, x) && Le(x, high) && (low.Infinite? || low == high)
    ensures x == low
  {
  }

  lemma LastHeadDiffers(s: seq<Distance>, kth: nat, k: nat)
    requires IsSorted(s) && 0 < k < kth < |s| && Sum(s[..k]).Finite? && s[0] != s[kth - 1]
    ensures Sum(s[kth - k..kth]) != Sum(s[..k])
  {
    hide Sum, Le, IsSorted;
    if s[kth - 1].Infinite? {
      var last := s[kth - k..kth];
      assert last[k - 1] == Infinite;
      SumInfinite(last);
    } else if Sum(s[kth - k..kth]) == Sum(s[..k]) {
      EqualHeadsTie(s, kth, k);
    }
  }

  lemma {:induction false} SumInfinite(s: seq<Distance>)
    requires Infinite in s
    ensures Sum(s).Infinite?
  {
    if !s[0].Infinite? {
      SumInfinite(s[1..]);
    }
  }

  // A witness: five distances in order, partitioned at the fifth, may come out
  // with the fourth in front.  The squares 0, 1, 4, 9, 16 become 9, 0, 1, 4, 16.
  lemma ShortHeadCanBeLargest(s: seq<Distance>)
    requires IsSorted(s) && |s| == 5
    ensures var part := [s[3], s[0], s[1], s[2], s[4]];
            IsPartition(s, part, 4) && Sum(part[..1]) == s[3] && Sum(Sorted(s)[..1]) == s[0]
  {
    FourthFirst(s);
    hide Sum, Sorted, IsPartition, IsSorted, Adversarial;
    AlreadySorted(s);
    AdversarialIsPartition(s, s, 4, 1);
    SumOfOne(Adversarial(s, 4, 1));
    SumOfOne(s);
  }

  lemma FourthFirst(s: seq<Distance>)
    requires |s| == 5
    ensures Adversarial(s, 4, 1) == [s[3], s[0], s[1], s[2], s[4]]
  {
  }

  lemma SumOfOne(s: seq<Distance>)
    requires s != []
    ensures Sum(s[..1]) == s[0]
  {
    assert s[..1][1..] == [];
    assert Sum(s[..1]) == Plus(s[0], Finite(0.0));
  }

  lemma {:induction false} AlreadySorted(s: seq<Distance>)
    requires IsSorted(s)
    ensures Sorted(s) == s
  {
    if s != [] {
      AlreadySorted(s[1..]);
    }
  }

  lemma LeAntisymmetric(a: Distance, b: Distance)
    requires Le(a, b) && Le(b, a)
    ensures a == b
  {
  }

  lemma {:induction false} FiniteSum(s: seq<Distance>)
    requires forall i :: 0 <= i < |s| ==> s[i].Finite?
    ensures Sum(s).Finite?
  {
    if s != [] {
      FiniteSum(s[1..]);
    }
  }
}
