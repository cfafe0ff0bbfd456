// Index permutations, `argsort`, and the guard the deployment parser puts on
// its two joint maps.
module Permutations {

  ghost predicate IsPermutation(p: seq<int>) {
    && (forall i :: 0 <= i < |p| ==> 0 <= p[i] < |p|)
    && (forall i, j :: 0 <= i < j < |p| ==> p[i] != p[j])
  }

  // What `argsort` promises: an arrangement of all indices that lists the keys
  // in nondecreasing order.  Nothing is said about the order of equal keys.
  ghost predicate IsArgsort(keys: seq<int>, order: seq<int>) {
    && |order| == |keys|
    && IsPermutation(order)
    && (forall i, j :: 0 <= i <= j < |order| ==> keys[order[i]] <= keys[order[j]])
  }

  ghost predicate AreInverse(p: seq<int>, q: seq<int>)
    requires IsPermutation(p) && IsPermutation(q)
  {
    |p| == |q| && forall h :: 0 <= h < |p| ==> q[p[h]] == h && p[q[h]] == h
  }

  // n distinct indices below n leave no index out.
  lemma {:induction false} PermutationIsOnto(p: seq<int>, v: int)
    requires IsPermutation(p) && 0 <= v < |p|
    ensures exists i :: 0 <= i < |p| && p[i] == v
  {
    var image := set i | 0 <= i < |p| :: p[i];
    ImageSize(p, |p|);
    IndicesBelow(|p|);
    if v !in image {
      assert image <= Indices(|p|) - {v};
      SubsetSize(image, Indices(|p|) - {v});
      assert false;
    }
  }

  lemma {:induction false} ImageSize(p: seq<int>, n: nat)
    requires n <= |p|
    requires forall i, j :: 0 <= i < j < |p| ==> p[i] != p[j]
    ensures |set i | 0 <= i < n :: p[i]| == n
    decreases n
  {
    if n > 0 {
      ImageSize(p, n - 1);
      var smaller := set i | 0 <= i < n - 1 :: p[i];
      assert (set i | 0 <= i < n :: p[i]) == smaller + {p[n - 1]};
    }
  }

  ghost function Indices(n: nat): set<int> {
    if n == 0 then {} else Indices(n - 1) + {n - 1}
  }

  lemma {:induction false} IndicesBelow(n: nat)
    ensures |Indices(n)| == n
    ensures forall i :: i in Indices(n) <==> 0 <= i < n
    decreases n
  {
    if n > 0 {
      IndicesBelow(n - 1);
    }
  }

  lemma {:induction false} SubsetSize<T>(a: set<T>, b: set<T>)
    requires a <= b
    ensures |a| <= |b|
    decreases a
  {
    if a != {} {
      var x :| x in a;
      SubsetSize(a - {x}, b - {x});
    }
  }

  // More distinct indices than room below the bound.
  lemma NoRoom(p: seq<int>, bound: nat)
    requires forall i :: 0 <= i < |p| ==> 0 <= p[i] < bound
    requires forall i, j :: 0 <= i < j < |p| ==> p[i] != p[j]
    ensures |p| <= bound
  {
    ImageSize(p, |p|);
    IndicesBelow(bound);
    SubsetSize(set i | 0 <= i < |p| :: p[i], Indices(bound));
  }

  // A strictly increasing arrangement of 0..n can only be 0, 1, ..., n - 1.
  lemma {:induction false} IncreasingIsIdentity(s: seq<int>, k: int)
    requires forall i :: 0 <= i < |s| ==> 0 <= s[i] < |s|
    requires forall i, j :: 0 <= i < j < |s| ==> s[i] < s[j]
    requires 0 <= k < |s|
    ensures s[k] == k
  {
    AtLeastIndex(s, k);
    AtMostIndex(s, k);
  }

  lemma {:induction false} AtLeastIndex(s: seq<int>, k: int)
    requires forall i :: 0 <= i < |s| ==> 0 <= s[i] < |s|
    requires forall i, j :: 0 <= i < j < |s| ==> s[i] < s[j]
    requires 0 <= k < |s|
    ensures s[k] >= k
    decreases k
  {
    if k > 0 {
      AtLeastIndex(s, k - 1);
    }
  }

  lemma {:induction false} AtMostIndex(s: seq<int>, k: int)
    requires forall i :: 0 <= i < |s| ==> 0 <= s[i] < |s|
    requires forall i, j :: 0 <= i < j < |s| ==> s[i] < s[j]
    requires 0 <= k < |s|
    ensures s[k] <= k
    decreases |s| - k
  {
    if k < |s| - 1 {
      AtMostIndex(s, k + 1);
    }
  }

  // Sorting the entries of a permutation inverts it, whichever sort is used:
  // the history order is the inverse of the consumed-output order.
  lemma {:induction false} ArgsortInverts(p: seq<int>, order: seq<int>)
    requires IsPermutation(p) && IsArgsort(p, order)
    ensures AreInverse(p, order)
  {
    var listed := seq(|p|, i requires 0 <= i < |p| => p[order[i]]);
    forall h | 0 <= h < |p|
      ensures p[order[h]] == h
    {
      IncreasingIsIdentity(listed, h);
    }
    forall h | 0 <= h < |p|
      ensures order[p[h]] == h
    {
      PermutationIsOnto(order, h);
      var i :| 0 <= i < |order| && order[i] == h;
      assert p[order[i]] == i;
    }
  }

  // The parser's guard `array_equal(argsort(a), b)`, read off its two maps.
  ghost predicate GuardPasses(isaaclabToMujoco: seq<int>, mujocoToIsaaclab: seq<int>) {
    IsArgsort(isaaclabToMujoco, mujocoToIsaaclab)
  }

  // What the guard is worth.  It always certifies the second map, but it
  // certifies the first one, and with it that the two are inverse, exactly
  // when the first map is a permutation to begin with.
  lemma {:induction false} GuardCertifiesInverse(a: seq<int>, b: seq<int>)
    requires GuardPasses(a, b)
    ensures IsPermutation(b)
    ensures IsPermutation(a) <==>
            (forall h :: 0 <= h < |a| ==> a[b[h]] == h)
    ensures IsPermutation(a) ==> AreInverse(a, b)
  {
    if IsPermutation(a) {
      ArgsortInverts(a, b);
    }
    if forall h :: 0 <= h < |a| ==> a[b[h]] == h {
      forall i | 0 <= i < |a|
        ensures 0 <= a[i] < |a| && b[a[i]] == i
      {
        PermutationIsOnto(b, i);
        var h :| 0 <= h < |b| && b[h] == i;
        assert a[b[h]] == h;
      }
    }
  }

  // The guard accepts maps that are not inverse: a constant first map passes.
  lemma GuardAcceptsNonPermutation()
    ensures GuardPasses([5, 5], [0, 1])
    ensures !IsPermutation([5, 5])
    ensures exists h :: 0 <= h < 2 && [5, 5][[0, 1][h]] != h
  {
    assert [5, 5][[0, 1][0]] != 0;
  }
}
