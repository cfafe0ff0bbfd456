// k-nearest-neighbour distances of every demonstration frame to a cloud built
// without the frame's own episode: the masked, blocked computation against the
// brute-force definition.
module LeaveOneOut {
  import opened Outcome
  import opened Permutations
  import opened NearestFirst
  import opened BruteForceSearch
  import Sequences

  // --------------------------------------------------------------- masking

  ghost predicate Cloud(cloud: seq<Vec>, labels: seq<int>, dim: nat) {
    |cloud| == |labels| && Frames(cloud, dim)
  }

  ghost predicate Nondecreasing(labels: seq<int>) {
    forall i, j :: 0 <= i <= j < |labels| ==> labels[i] <= labels[j]
  }

  function Rearranged(labels: seq<int>, order: seq<int>): seq<int>
    requires IsArgsort(labels, order)
  {
    seq(|labels|, i requires 0 <= i < |labels| => labels[order[i]])
  }

  // First and last position of a label, the two ends `flatnonzero` gives.
  function First(labels: seq<int>, episode: int): (k: nat)
    ensures k <= |labels|
    ensures episode in labels ==> k < |labels| && labels[k] == episode
    ensures episode !in labels[..k]
  {
    if labels == [] || labels[0] == episode then 0 else
    assert forall k :: 0 < k <= |labels| ==> labels[..k] == [labels[0]] + labels[1..][..k - 1];
    1 + First(labels[1..], episode)
  }

  function Last(labels: seq<int>, episode: int): (k: nat)
    requires episode in labels
    ensures k < |labels| && labels[k] == episode && episode !in labels[k + 1..]
    decreases |labels|
  {
    var n := |labels| - 1;
    if labels[n] == episode then n else
    assert labels == labels[..n] + [labels[n]];
    var k := Last(labels[..n], episode);
    assert labels[k + 1..] == labels[..n][k + 1..] + [labels[n]];
    k
  }

  // The script's column range for one episode: where its label stands in the
  // sorted list.
  ghost predicate InBlock(labels: seq<int>, order: seq<int>, episode: int, column: int)
    requires IsArgsort(labels, order)
  {
    && episode in Rearranged(labels, order)
    && First(Rearranged(labels, order), episode) <= column <= Last(Rearranged(labels, order), episode)
  }

  lemma SortedLabelsHaveAll(labels: seq<int>, order: seq<int>, episode: int)
    requires IsArgsort(labels, order)
    ensures episode in labels <==> episode in Rearranged(labels, order)
    ensures Nondecreasing(Rearranged(labels, order))
  {
    if episode in labels {
      var c :| 0 <= c < |labels| && labels[c] == episode;
      PermutationIsOnto(order, c);
      var i :| 0 <= i < |order| && order[i] == c;
      assert Rearranged(labels, order)[i] == episode;
    }
  }

  // A block of the sorted list holds its label and no other.
  lemma {:induction false} BlockIsLabel(sorted: seq<int>, episode: int, column: int)
    requires Nondecreasing(sorted) && episode in sorted && 0 <= column < |sorted|
    ensures First(sorted, episode) <= column <= Last(sorted, episode) <==> sorted[column] == episode
  {
    var first, last := First(sorted, episode), Last(sorted, episode);
    assert column < first ==> sorted[column] == sorted[..first][column];
    assert column > last ==> sorted[column] == sorted[last + 1..][column - last - 1];
  }

  // The columns masked for a query of one episode, and the ones that should be.
  ghost function MaskedColumns(labels: seq<int>, order: seq<int>, episode: int): set<int>
    requires IsArgsort(labels, order)
  {
    set c | 0 <= c < |labels| && InBlock(labels, order, episode, c)
  }

  ghost function OwnFrames(labels: seq<int>, episode: int): set<int> {
    set c | 0 <= c < |labels| && labels[c] == episode
  }

  ghost predicate MasksOwnEpisodes(labels: seq<int>, order: seq<int>)
    requires IsArgsort(labels, order)
  {
    forall i :: 0 <= i < |labels| ==> MaskedColumns(labels, order, labels[i]) == OwnFrames(labels, labels[i])
  }

  // The columns masked for a query are the frames of its own episode, for
  // every query, exactly when the labels come in nondecreasing order: the
  // range is found in the sorted list but applied to the unsorted cloud.
  lemma {:induction false} MaskRemovesOwnEpisode(labels: seq<int>, order: seq<int>)
    requires IsArgsort(labels, order)
    ensures MasksOwnEpisodes(labels, order) <==> Nondecreasing(labels)
  {
    if Nondecreasing(labels) {
      SortedStays(labels, order);
      forall i | 0 <= i < |labels|
        ensures MaskedColumns(labels, order, labels[i]) == OwnFrames(labels, labels[i])
      {
        SortedLabelsHaveAll(labels, order, labels[i]);
        forall c | 0 <= c < |labels|
          ensures c in MaskedColumns(labels, order, labels[i]) <==> c in OwnFrames(labels, labels[i])
        {
          BlockIsLabel(labels, labels[i], c);
        }
      }
    }
    if MasksOwnEpisodes(labels, order) {
      var sorted := Rearranged(labels, order);
      forall c | 0 <= c < |labels|
        ensures labels[c] == sorted[c]
      {
        SortedLabelsHaveAll(labels, order, labels[c]);
        assert c in OwnFrames(labels, labels[c]);
        assert c in MaskedColumns(labels, order, labels[c]);
        BlockIsLabel(sorted, labels[c], c);
      }
      if |labels| > 0 {
        SortedLabelsHaveAll(labels, order, labels[0]);
      }
    }
  }

  // A witness: of two frames with descending labels, the first one's mask falls
  // on the other.
  lemma DescendingLabelsMislead(labels: seq<int>, order: seq<int>)
    requires |labels| == |order| == 2 && labels[0] > labels[1] && order[0] == 1 && order[1] == 0
    ensures IsArgsort(labels, order)
    ensures MaskedColumns(labels, order, labels[0]) == {1} && OwnFrames(labels, labels[0]) == {0}
  {
    var sorted := Rearranged(labels, order);
    assert |sorted| == 2 && sorted[0] == labels[1] && sorted[1] == labels[0];
    assert labels[0] in sorted;
    hide First, Last, Rearranged;
    BlockIsLabel(sorted, labels[0], 0);
    BlockIsLabel(sorted, labels[0], 1);
  }

  // Sorting a sorted list of labels changes nothing: some entry up to c comes
  // from c or later, and some entry from c on comes from c or earlier.
  lemma {:induction false} SortedStays(labels: seq<int>, order: seq<int>)
    requires IsArgsort(labels, order) && Nondecreasing(labels)
    ensures Rearranged(labels, order) == labels
  {
    var n := |labels|;
    forall c | 0 <= c < n
      ensures labels[order[c]] == labels[c]
    {
      if forall i :: 0 <= i <= c ==> order[i] < c {
        NoRoom(order[..c + 1], c);
        assert false;
      }
      var i :| 0 <= i <= c && order[i] >= c;
      var flipped := seq(n - c, k requires 0 <= k < n - c => n - 1 - order[c + k]);
      if forall k :: c <= k < n ==> order[k] > c {
        NoRoom(flipped, n - 1 - c);
        assert false;
      }
      var k :| c <= k < n && order[k] <= c;
      assert labels[c] <= labels[order[i]] <= labels[order[c]] <= labels[order[k]] <= labels[c];
    }
  }

  // ------------------------------------------------------------ the script

  // The row as the script fills it: expanded distances, with the query's block
  // of columns overwritten.
  ghost function MaskedRow(cloud: seq<Vec>, labels: seq<int>, order: seq<int>, dim: nat, i: nat): (row: seq<Distance>)
    requires Cloud(cloud, labels, dim) && i < |cloud| && IsArgsort(labels, order)
    ensures |row| == |cloud|
  {
    seq(|cloud|, c requires 0 <= c < |cloud| =>
      if InBlock(labels, order, labels[i], c) then Infinite else Finite(ExpandedDistance(cloud[i], cloud[c])))
  }

  // It is the row of true distances outside the masked columns, whatever the
  // order of the labels.
  lemma {:induction false} MaskedRowIsOutside(cloud: seq<Vec>, labels: seq<int>, order: seq<int>, dim: nat, i: nat)
    requires Cloud(cloud, labels, dim) && i < |cloud| && IsArgsort(labels, order)
    ensures MaskedRow(cloud, labels, order, dim, i)
         == RowOutside(cloud, dim, i, MaskedColumns(labels, order, labels[i]))
  {
    hide InBlock, ExpandedDistance, SquaredDistance;
    forall c | 0 <= c < |cloud|
      ensures ExpandedDistance(cloud[i], cloud[c]) == SquaredDistance(cloud[i], cloud[c])
    {
      ExpandedIsExact(cloud[i], cloud[c]);
    }
  }

  function Max(s: seq<nat>): (m: nat)
    requires s != []
    ensures m in s && forall x :: x in s ==> x <= m
  {
    if |s| == 1 then s[0]
    else
      assert s == [s[0]] + s[1..];
      var rest := Max(s[1..]);
      if s[0] > rest then s[0] else rest
  }

  function RootOf(root: real -> real, mean: Distance): Distance {
    match mean
    case Finite(square) => Finite(root(square))
    case Infinite => Infinite
  }

  method Blocks(labels: seq<int>, order: seq<int>) returns (blocks: map<int, (nat, nat)>)
    requires IsArgsort(labels, order)
    ensures BlocksOf(blocks, labels, Rearranged(labels, order))
  {
    var sortedLabels := Rearranged(labels, order);
    forall episode | episode in labels
      ensures episode in sortedLabels
    {
      SortedLabelsHaveAll(labels, order, episode);
    }
    blocks := map[];
    var episodes := Sequences.Unique(labels);
    hide First, Last, Rearranged, IsArgsort;
    assert BlocksOf(blocks, episodes[..0], sortedLabels);
    for n := 0 to |episodes|
      invariant BlocksOf(blocks, episodes[..n], sortedLabels)
    {
      assert episodes[n] in labels;
      OneMoreBlock(blocks, episodes, n, sortedLabels);
      hide BlocksOf;
      blocks := blocks[episodes[n] := (First(sortedLabels, episodes[n]), Last(sortedLabels, episodes[n]) + 1)];
    }
    assert episodes[..|episodes|] == episodes;
  }

  lemma OneMoreBlock(blocks: map<int, (nat, nat)>, episodes: seq<int>, n: nat, sortedLabels: seq<int>)
    requires n < |episodes| && BlocksOf(blocks, episodes[..n], sortedLabels) && episodes[n] in sortedLabels
    ensures BlocksOf(blocks[episodes[n] := (First(sortedLabels, episodes[n]), Last(sortedLabels, episodes[n]) + 1)],
                     episodes[..n + 1], sortedLabels)
  {
    hide First, Last;
    assert episodes[..n + 1] == episodes[..n] + [episodes[n]];
  }

  function Overwrite(row: seq<Distance>, begin: nat, end: nat): (r: seq<Distance>)
    ensures |r| == |row|
  {
    seq(|row|, c requires 0 <= c < |row| => if begin <= c < end then Infinite else row[c])
  }

  function RawRow(cloud: seq<Vec>, ghost dim: nat, i: int): (row: seq<Distance>)
    requires (forall c :: 0 <= c < |cloud| ==> |cloud[c]| == dim) && 0 <= i < |cloud|
    ensures |row| == |cloud|
  {
    seq(|cloud|, c requires 0 <= c < |cloud| => Finite(ExpandedDistance(cloud[i], cloud[c])))
  }

  lemma OverwriteMasks(cloud: seq<Vec>, labels: seq<int>, order: seq<int>, dim: nat, i: nat, row: seq<Distance>)
    requires Cloud(cloud, labels, dim) && i < |cloud| && IsArgsort(labels, order)
    requires labels[i] in Rearranged(labels, order)
    requires row == RawRow(cloud, dim, i) || row == MaskedRow(cloud, labels, order, dim, i)
    ensures Overwrite(row, First(Rearranged(labels, order), labels[i]), Last(Rearranged(labels, order), labels[i]) + 1)
         == MaskedRow(cloud, labels, order, dim, i)
  {
  }

  ghost predicate BlocksOf(blocks: map<int, (nat, nat)>, labels: seq<int>, sortedLabels: seq<int>)
  {
    forall episode :: episode in labels ==>
      && episode in sortedLabels
      && episode in blocks
      && blocks[episode] == (First(sortedLabels, episode), Last(sortedLabels, episode) + 1)
  }

  ghost function MaskedRows(cloud: seq<Vec>, labels: seq<int>, order: seq<int>, dim: nat, rows: seq<int>)
    : (masked: seq<seq<Distance>>)
    requires Cloud(cloud, labels, dim) && IsArgsort(labels, order)
    requires forall q :: 0 <= q < |rows| ==> 0 <= rows[q] < |cloud|
    ensures |masked| == |rows|
  {
    seq(|rows|, q requires 0 <= q < |rows| => MaskedRow(cloud, labels, order, dim, rows[q]))
  }

  // The masked rows of one block of queries.
  method MaskedBlock(cloud: seq<Vec>, labels: seq<int>, ghost order: seq<int>, ghost dim: nat,
                     blocks: map<int, (nat, nat)>, rows: seq<int>)
    returns (distances: seq<seq<Distance>>)
    requires Cloud(cloud, labels, dim) && IsArgsort(labels, order)
    requires BlocksOf(blocks, labels, Rearranged(labels, order))
    requires forall q :: 0 <= q < |rows| ==> 0 <= rows[q] < |cloud|
    ensures distances == MaskedRows(cloud, labels, order, dim, rows)
  {
    distances := seq(|rows|, q requires 0 <= q < |rows| => RawRow(cloud, dim, rows[q]));
    var owners := seq(|rows|, q requires 0 <= q < |rows| => labels[rows[q]]);
    ghost var raw, masked := distances, MaskedRows(cloud, labels, order, dim, rows);
    assert RowsAre(cloud, labels, order, dim, rows, owners, raw, masked);
    distances := MaskEpisodes(cloud, labels, order, dim, blocks, rows, owners, distances, masked);
  }

  ghost predicate RowsAre(cloud: seq<Vec>, labels: seq<int>, order: seq<int>, dim: nat, rows: seq<int>,
                          owners: seq<int>,
                          raw: seq<seq<Distance>>, masked: seq<seq<Distance>>)
    requires Cloud(cloud, labels, dim) && IsArgsort(labels, order)
  {
    && |owners| == |raw| == |masked| == |rows|
    && (forall q :: 0 <= q < |rows| ==> 0 <= rows[q] < |cloud| && owners[q] == labels[rows[q]])
    && (forall q :: 0 <= q < |rows| ==> raw[q] == RawRow(cloud, dim, rows[q]))
    && (forall q :: 0 <= q < |rows| ==> masked[q] == MaskedRow(cloud, labels, order, dim, rows[q]))
  }

  // The episode loop over one block.
  method MaskEpisodes(cloud: seq<Vec>, labels: seq<int>, ghost order: seq<int>, ghost dim: nat,
                      blocks: map<int, (nat, nat)>, ghost rows: seq<int>, owners: seq<int>,
                      raw: seq<seq<Distance>>, ghost masked: seq<seq<Distance>>)
    returns (distances: seq<seq<Distance>>)
    requires Cloud(cloud, labels, dim) && IsArgsort(labels, order)
    requires BlocksOf(blocks, labels, Rearranged(labels, order))
    requires RowsAre(cloud, labels, order, dim, rows, owners, raw, masked)
    ensures distances == masked
  {
    var episodes := Sequences.Unique(owners);
    distances := raw;
    NoneMasked(raw, masked, owners);
    hide Cloud, IsArgsort, BlocksOf, Rearranged, RowsAre, PartlyMasked, MaskedFor;
    for n := 0 to |episodes|
      invariant PartlyMasked(distances, raw, masked, owners, episodes[..n])
    {
      assert episodes[n] in owners;
      ghost var before := distances;
      distances := MaskEpisode(cloud, labels, order, dim, blocks, rows, owners, raw, masked, distances, episodes[n],
                               episodes[..n]);
      OneMoreMasked(before, distances, raw, masked, owners, episodes, n);
    }
    assert episodes[..|episodes|] == episodes;
    AllMasked(distances, raw, masked, owners, episodes);
  }

  // The rows whose owner is done are masked, the others still raw.
  ghost predicate PartlyMasked(distances: seq<seq<Distance>>, raw: seq<seq<Distance>>, masked: seq<seq<Distance>>,
                               owners: seq<int>, done: seq<int>) {
    && |distances| == |raw| == |masked| == |owners|
    && forall q :: 0 <= q < |owners| ==> distances[q] == if owners[q] in done then masked[q] else raw[q]
  }

  // The rows of one owner are masked, the others as they were.
  ghost predicate MaskedFor(next: seq<seq<Distance>>, distances: seq<seq<Distance>>, masked: seq<seq<Distance>>,
                            owners: seq<int>, episode: int) {
    && |next| == |distances| == |masked| == |owners|
    && forall q :: 0 <= q < |owners| ==> next[q] == if owners[q] == episode then masked[q] else distances[q]
  }

  lemma NoneMasked(raw: seq<seq<Distance>>, masked: seq<seq<Distance>>, owners: seq<int>)
    requires |raw| == |masked| == |owners|
    ensures PartlyMasked(raw, raw, masked, owners, [])
  {
  }

  lemma OneMoreMasked(distances: seq<seq<Distance>>, next: seq<seq<Distance>>, raw: seq<seq<Distance>>,
                      masked: seq<seq<Distance>>, owners: seq<int>, episodes: seq<int>, n: nat)
    requires n < |episodes| && PartlyMasked(distances, raw, masked, owners, episodes[..n])
    requires MaskedFor(next, distances, masked, owners, episodes[n])
    ensures PartlyMasked(next, raw, masked, owners, episodes[..n + 1])
  {
    assert episodes[..n + 1] == episodes[..n] + [episodes[n]];
  }

  lemma AllMasked(distances: seq<seq<Distance>>, raw: seq<seq<Distance>>, masked: seq<seq<Distance>>,
                  owners: seq<int>, episodes: seq<int>)
    requires PartlyMasked(distances, raw, masked, owners, episodes)
    requires forall owner :: owner in owners ==> owner in episodes
    ensures distances == masked
  {
    forall q | 0 <= q < |owners|
      ensures distances[q] == masked[q]
    {
      var owner := owners[q];
      assert owner in owners && owner in episodes;
    }
  }

  // `distances[labels[rows] == episode, begin:end] = inf`
  method MaskEpisode(cloud: seq<Vec>, labels: seq<int>, ghost order: seq<int>, ghost dim: nat,
                     blocks: map<int, (nat, nat)>, ghost rows: seq<int>, owners: seq<int>,
                     ghost raw: seq<seq<Distance>>, ghost masked: seq<seq<Distance>>,
                     distances: seq<seq<Distance>>, episode: int, ghost done: seq<int>)
    returns (next: seq<seq<Distance>>)
    requires Cloud(cloud, labels, dim) && IsArgsort(labels, order)
    requires BlocksOf(blocks, labels, Rearranged(labels, order))
    requires RowsAre(cloud, labels, order, dim, rows, owners, raw, masked)
    requires PartlyMasked(distances, raw, masked, owners, done) && episode in owners
    ensures MaskedFor(next, distances, masked, owners, episode)
  {
    OwnerBlock(cloud, labels, order, dim, blocks, rows, owners, raw, masked, episode);
    assert |distances| == |owners|;
    OwnRowsMasked(cloud, labels, order, dim, rows, owners, raw, masked, distances, done, episode);
    hide Cloud, BlocksOf, IsArgsort, RowsAre, PartlyMasked, MaskedFor, Rearranged;
    var (begin, end) := blocks[episode];
    next := OverwriteOwn(distances, owners, episode, begin, end);
  }

  function OverwriteOwn(distances: seq<seq<Distance>>, owners: seq<int>, episode: int, begin: nat, end: nat)
    : (next: seq<seq<Distance>>)
    requires |distances| == |owners|
    ensures |next| == |owners|
  {
    seq(|owners|, q requires 0 <= q < |owners| =>
      if owners[q] == episode then Overwrite(distances[q], begin, end) else distances[q])
  }

  lemma OwnRowsMasked(cloud: seq<Vec>, labels: seq<int>, order: seq<int>, dim: nat, rows: seq<int>, owners: seq<int>,
                      raw: seq<seq<Distance>>, masked: seq<seq<Distance>>, distances: seq<seq<Distance>>,
                      done: seq<int>, episode: int)
    requires Cloud(cloud, labels, dim) && IsArgsort(labels, order)
    requires RowsAre(cloud, labels, order, dim, rows, owners, raw, masked)
    requires PartlyMasked(distances, raw, masked, owners, done)
    requires episode in Rearranged(labels, order)
    ensures var sorted := Rearranged(labels, order);
            MaskedFor(OverwriteOwn(distances, owners, episode, First(sorted, episode), Last(sorted, episode) + 1),
                      distances, masked, owners, episode)
  {
    SameLengths(cloud, labels, order, dim, rows, owners, raw, masked, distances, done);
    hide *;
    var begin, end := First(Rearranged(labels, order), episode), Last(Rearranged(labels, order), episode) + 1;
    forall q | 0 <= q < |owners| && owners[q] == episode
      ensures Overwrite(distances[q], begin, end) == masked[q]
    {
      OwnRowMasked(cloud, labels, order, dim, rows, owners, raw, masked, distances, done, q);
    }
    OverwrittenFor(distances, masked, owners, episode, begin, end);
  }

  lemma SameLengths(cloud: seq<Vec>, labels: seq<int>, order: seq<int>, dim: nat, rows: seq<int>, owners: seq<int>,
                    raw: seq<seq<Distance>>, masked: seq<seq<Distance>>, distances: seq<seq<Distance>>, done: seq<int>)
    requires Cloud(cloud, labels, dim) && IsArgsort(labels, order)
    requires RowsAre(cloud, labels, order, dim, rows, owners, raw, masked)
    requires PartlyMasked(distances, raw, masked, owners, done)
    ensures |distances| == |masked| == |owners|
  {
  }

  lemma OverwrittenFor(distances: seq<seq<Distance>>, masked: seq<seq<Distance>>, owners: seq<int>, episode: int,
                       begin: nat, end: nat)
    requires |distances| == |masked| == |owners|
    requires forall q :: 0 <= q < |owners| && owners[q] == episode ==> Overwrite(distances[q], begin, end) == masked[q]
    ensures MaskedFor(OverwriteOwn(distances, owners, episode, begin, end), distances, masked, owners, episode)
  {
    hide Overwrite;
  }

  lemma OwnRowMasked(cloud: seq<Vec>, labels: seq<int>, order: seq<int>, dim: nat, rows: seq<int>, owners: seq<int>,
                     raw: seq<seq<Distance>>, masked: seq<seq<Distance>>, distances: seq<seq<Distance>>, done: seq<int>,
                     q: nat)
    requires Cloud(cloud, labels, dim) && IsArgsort(labels, order)
    requires RowsAre(cloud, labels, order, dim, rows, owners, raw, masked)
    requires PartlyMasked(distances, raw, masked, owners, done) && q < |owners|
    requires owners[q] in Rearranged(labels, order)
    ensures var sorted := Rearranged(labels, order);
            Overwrite(distances[q], First(sorted, owners[q]), Last(sorted, owners[q]) + 1) == masked[q]
  {
    hide MaskedRow, RawRow, Overwrite, Rearranged, IsArgsort;
    OverwriteMasks(cloud, labels, order, dim, rows[q], distances[q]);
  }

  // A block's owner has its range of columns.
  lemma OwnerBlock(cloud: seq<Vec>, labels: seq<int>, order: seq<int>, dim: nat, blocks: map<int, (nat, nat)>,
                   rows: seq<int>,
                   owners: seq<int>, raw: seq<seq<Distance>>, masked: seq<seq<Distance>>, episode: int)
    requires Cloud(cloud, labels, dim) && IsArgsort(labels, order)
    requires BlocksOf(blocks, labels, Rearranged(labels, order))
    requires RowsAre(cloud, labels, order, dim, rows, owners, raw, masked) && episode in owners
    ensures episode in blocks && episode in Rearranged(labels, order)
    ensures blocks[episode] == (First(Rearranged(labels, order), episode), Last(Rearranged(labels, order), episode) + 1)
  {
    hide First, Last, Rearranged, IsArgsort, RawRow, MaskedRow;
    var q :| 0 <= q < |owners| && owners[q] == episode;
    assert labels[rows[q]] in labels;
  }

  type Partition = (seq<Distance>, nat) -> seq<Distance>

  ghost predicate Lawful(partition: Partition) {
    forall row, kth: nat :: kth < |row| ==> IsPartition(row, partition(row, kth), kth)
  }

  ghost predicate Fits(neighbours: seq<nat>, n: nat) {
    && neighbours != []
    && Max(neighbours) <= n
    && forall j :: 0 <= j < |neighbours| ==> 0 < neighbours[j] <= Max(neighbours)
  }

  // The scores one row yields, one for each neighbour count.
  ghost function Scores(row: seq<Distance>, neighbours: seq<nat>, partition: Partition, root: real -> real)
    : seq<Distance>
    requires Lawful(partition) && Fits(neighbours, |row|)
  {
    ScoresOf(partition(row, Max(neighbours) - 1), neighbours, root)
  }

  ghost function ScoresOf(part: seq<Distance>, neighbours: seq<nat>, root: real -> real): (scores: seq<Distance>)
    requires Fits(neighbours, |part|)
    ensures |scores| == |neighbours|
  {
    seq(|neighbours|, j requires 0 <= j < |neighbours| => RootOf(root, Mean(part[..neighbours[j]])))
  }

  method ScoreRow(row: seq<Distance>, neighbours: seq<nat>, partition: Partition, root: real -> real)
    returns (scores: seq<Distance>)
    requires Lawful(partition) && Fits(neighbours, |row|)
    ensures scores == Scores(row, neighbours, partition, root)
  {
    var kMax := Max(neighbours);
    var whole := partition(row, kMax - 1);
    assert IsPartition(row, whole, kMax - 1);
    var part := whole[..kMax];
    scores := [];
    for j := 0 to |neighbours|
      invariant scores == ScoresOf(whole, neighbours, root)[..j]
    {
      var k := neighbours[j];
      assert part[..k] == whole[..k];
      scores := scores + [RootOf(root, Mean(part[..k]))];
    }
  }

  // `out[k][rows] = ...`, for all neighbour counts at once.
  method AssignScores(out: array<seq<Distance>>, rows: seq<int>, distances: seq<seq<Distance>>,
                      neighbours: seq<nat>, partition: Partition, root: real -> real)
    requires |rows| == |distances| && Lawful(partition)
    requires forall q :: 0 <= q < |rows| ==> 0 <= rows[q] < out.Length && Fits(neighbours, |distances[q]|)
    requires forall p, q :: 0 <= p < q < |rows| ==> rows[p] != rows[q]
    modifies out
    ensures forall q :: 0 <= q < |rows| ==> out[rows[q]] == Scores(distances[q], neighbours, partition, root)
    ensures forall i :: 0 <= i < out.Length && i !in rows ==> out[i] == old(out[i])
  {
    for q := 0 to |rows|
      invariant forall p :: 0 <= p < q ==> out[rows[p]] == Scores(distances[p], neighbours, partition, root)
      invariant forall i :: 0 <= i < out.Length && i !in rows[..q] ==> out[i] == old(out[i])
    {
      var scores := ScoreRow(distances[q], neighbours, partition, root);
      out[rows[q]] := scores;
      assert rows[..q + 1] == rows[..q] + [rows[q]];
    }
    assert rows[..|rows|] == rows;
  }

  // One pass of the block loop: mask, partition, store.
  method ScoreBlock(out: array<seq<Distance>>, cloud: seq<Vec>, labels: seq<int>, ghost order: seq<int>, ghost dim: nat,
                    blocks: map<int, (nat, nat)>, rows: seq<int>, neighbours: seq<nat>, partition: Partition,
                    root: real -> real)
    requires Cloud(cloud, labels, dim) && IsArgsort(labels, order) && Lawful(partition)
    requires BlocksOf(blocks, labels, Rearranged(labels, order))
    requires Fits(neighbours, |cloud|) && out.Length == |cloud|
    requires forall q :: 0 <= q < |rows| ==> 0 <= rows[q] < |cloud|
    requires forall p, q :: 0 <= p < q < |rows| ==> rows[p] != rows[q]
    modifies out
    ensures forall i :: 0 <= i < |cloud| && i in rows ==>
              Scored(out[i], cloud, labels, order, dim, neighbours, partition, root, i)
    ensures forall i :: 0 <= i < |cloud| && i !in rows ==> out[i] == old(out[i])
  {
    var distances := MaskedBlock(cloud, labels, order, dim, blocks, rows);
    AssignScores(out, rows, distances, neighbours, partition, root);
  }

  ghost predicate Scored(scores: seq<Distance>, cloud: seq<Vec>, labels: seq<int>, order: seq<int>, dim: nat,
                         neighbours: seq<nat>, partition: Partition, root: real -> real, i: int)
    requires Cloud(cloud, labels, dim) && IsArgsort(labels, order) && Lawful(partition) && Fits(neighbours, |cloud|)
    requires 0 <= i < |cloud|
  {
    scores == Scores(MaskedRow(cloud, labels, order, dim, i), neighbours, partition, root)
  }

  // The script's loop.  Whatever the block size, the order that sorts the
  // labels and the lawful `partition`, frame i gets the scores of its own
  // masked row.
  method LoeoKnn(cloud: seq<Vec>, labels: seq<int>, order: seq<int>, ghost dim: nat, neighbours: seq<nat>, block: nat,
                 partition: Partition, root: real -> real)
    returns (r: Result<seq<seq<Distance>>, string>)
    requires Cloud(cloud, labels, dim) && IsArgsort(labels, order) && Lawful(partition)
    requires neighbours != [] && (forall k :: k in neighbours ==> k > 0) && block > 0
    ensures r.Success? <==> |cloud| == 0 || Fits(neighbours, |cloud|)
    ensures r.Success? ==> |r.value| == |cloud|
    ensures r.Success? ==> forall i :: 0 <= i < |cloud| ==>
              Scored(r.value[i], cloud, labels, order, dim, neighbours, partition, root, i)
  {
    var kMax, n := Max(neighbours), |cloud|;
    if 0 < n < kMax {
      return Failure("kth out of bounds");
    }
    var out := new seq<Distance>[n](_ => []);
    if n == 0 {
      return Success(out[..]);
    }
    assert Fits(neighbours, n) by {
      assert forall j :: 0 <= j < |neighbours| ==> neighbours[j] in neighbours;
    }
    hide Scored, Max, Lawful, IsArgsort, Cloud, Fits, BlocksOf;
    var blocks := Blocks(labels, order);
    ScoreAll(out, cloud, labels, order, dim, blocks, neighbours, block, partition, root);
    return Success(out[..]);
  }

  // The block loop, in the order that sorts the labels.
  method ScoreAll(out: array<seq<Distance>>, cloud: seq<Vec>, labels: seq<int>, order: seq<int>, ghost dim: nat,
                  blocks: map<int, (nat, nat)>, neighbours: seq<nat>, block: nat, partition: Partition,
                  root: real -> real)
    requires Cloud(cloud, labels, dim) && IsArgsort(labels, order) && Lawful(partition)
    requires BlocksOf(blocks, labels, Rearranged(labels, order))
    requires Fits(neighbours, |cloud|) && out.Length == |cloud| == |order| && block > 0
    modifies out
    ensures forall i :: 0 <= i < |cloud| ==> Scored(out[i], cloud, labels, order, dim, neighbours, partition, root, i)
  {
    hide Scored, Max, Lawful, IsPermutation, BlocksOf, Cloud, Fits, Rearranged;
    var n, start := |cloud|, 0;
    while start < n
      invariant 0 <= start <= n
      invariant forall i :: 0 <= i < n && i in order[..start] ==>
                  Scored(out[i], cloud, labels, order, dim, neighbours, partition, root, i)
    {
      var stop := if start + block < n then start + block else n;
      var rows := order[start..stop];
      BlockRows(order, start, stop);
      ScoreBlock(out, cloud, labels, order, dim, blocks, rows, neighbours, partition, root);
      start := stop;
    }
    AllListed(order);
    assert order[..n] == order;
  }

  lemma BlockRows(order: seq<int>, start: nat, stop: nat)
    requires IsPermutation(order) && start <= stop <= |order|
    ensures var rows := order[start..stop];
            && (forall q :: 0 <= q < |rows| ==> 0 <= rows[q] < |order|)
            && (forall p, q :: 0 <= p < q < |rows| ==> rows[p] != rows[q])
            && (forall i :: i in order[..stop] <==> i in order[..start] || i in rows)
  {
    assert order[..stop] == order[..start] + order[start..stop];
  }

  lemma AllListed(order: seq<int>)
    requires IsPermutation(order)
    ensures forall i :: 0 <= i < |order| ==> i in order
  {
    forall i | 0 <= i < |order|
      ensures i in order
    {
      PermutationIsOnto(order, i);
    }
  }

  // ------------------------------------------------------------- the theorem

  // The leave-one-out definition: the k nearest frames of other episodes.
  ghost function BruteForce(cloud: seq<Vec>, labels: seq<int>, dim: nat, i: nat, k: nat): Distance
    requires Cloud(cloud, labels, dim) && i < |cloud| && k > 0
  {
    Nearest(cloud, dim, i, OwnFrames(labels, labels[i]), k)
  }

  // Whatever the labels and the lawful partition: the largest k and the one below
  // it give the mean of the k nearest frames outside the masked columns exactly,
  // and a smaller k lies between the k smallest and the k largest of the kMax - 1
  // nearest.
  lemma {:induction false} KnnIsNearest(cloud: seq<Vec>, labels: seq<int>, order: seq<int>, dim: nat, i: nat,
                                        part: seq<Distance>, kMax: nat, k: nat)
    requires Cloud(cloud, labels, dim) && i < |cloud| && IsArgsort(labels, order)
    requires 0 < k <= kMax <= |cloud|
    requires IsPartition(MaskedRow(cloud, labels, order, dim, i), part, kMax - 1)
    ensures var masked := MaskedColumns(labels, order, labels[i]);
            && (k >= kMax - 1 ==> Mean(part[..k]) == Nearest(cloud, dim, i, masked, k))
            && (k < kMax ==> Le(Nearest(cloud, dim, i, masked, k), Mean(part[..k])))
            && (k < kMax ==>
                  Le(Mean(part[..k]), Mean(Sorted(RowOutside(cloud, dim, i, masked))[kMax - 1 - k..kMax - 1])))
  {
    PartitionLengths(MaskedRow(cloud, labels, order, dim, i), part, kMax - 1);
    var masked := MaskedColumns(labels, order, labels[i]);
    hide Mean, Le, Sorted, IsPartition, RowOutside, MaskedRow, Nearest, IsArgsort, MaskedColumns;
    MaskedRowIsOutside(cloud, labels, order, dim, i);
    SortedRowIsNearest(cloud, dim, i, masked, k);
    HeadMeans(RowOutside(cloud, dim, i, masked), part, kMax, k);
  }

  // The script's scores for the largest neighbour count and the one below it: the
  // root of the mean over the nearest unmasked frames, which on labels in order
  // are the frames of the other episodes.
  lemma {:induction false} ScoresAreNearest(scores: seq<Distance>, cloud: seq<Vec>, labels: seq<int>, order: seq<int>,
                                            dim: nat, neighbours: seq<nat>, partition: Partition, root: real -> real,
                                            i: nat, j: nat)
    requires Cloud(cloud, labels, dim) && IsArgsort(labels, order) && i < |cloud|
    requires Lawful(partition) && Fits(neighbours, |cloud|)
    requires Scored(scores, cloud, labels, order, dim, neighbours, partition, root, i)
    requires j < |neighbours| && neighbours[j] >= Max(neighbours) - 1
    ensures |scores| == |neighbours|
    ensures scores[j] == RootOf(root, Nearest(cloud, dim, i, MaskedColumns(labels, order, labels[i]), neighbours[j]))
    ensures Nondecreasing(labels) ==> scores[j] == RootOf(root, BruteForce(cloud, labels, dim, i, neighbours[j]))
  {
    var row, kMax := MaskedRow(cloud, labels, order, dim, i), Max(neighbours);
    var part := partition(row, kMax - 1);
    assert IsPartition(row, part, kMax - 1);
    PartitionLengths(row, part, kMax - 1);
    hide IsPartition, Nearest, MaskedRow, Mean, MaskedColumns, OwnFrames;
    KnnIsNearest(cloud, labels, order, dim, i, part, kMax, neighbours[j]);
    MaskRemovesOwnEpisode(labels, order);
  }

  // k distinct frames of other episodes, none of the others nearer than one of them.
  ghost predicate NearestOthers(cloud: seq<Vec>, labels: seq<int>, dim: nat, i: nat, picked: seq<int>)
    requires Cloud(cloud, labels, dim) && i < |cloud|
  {
    && (forall p :: 0 <= p < |picked| ==> 0 <= picked[p] < |cloud| && labels[picked[p]] != labels[i])
    && (forall p, q :: 0 <= p < q < |picked| ==> picked[p] != picked[q])
    && (forall p, c :: 0 <= p < |picked| && 0 <= c < |cloud| && labels[c] != labels[i] && c !in picked ==>
          SquaredDistance(cloud[i], cloud[picked[p]]) <= SquaredDistance(cloud[i], cloud[c]))
  }

  // The same scores frame by frame: the root of the average squared distance to
  // the k nearest frames of other episodes, infinite when there are fewer.
  lemma {:induction false} ScoresAreRootMeans(scores: seq<Distance>, cloud: seq<Vec>, labels: seq<int>,
                                              order: seq<int>, dim: nat, neighbours: seq<nat>, partition: Partition,
                                              root: real -> real, i: nat, j: nat)
    requires Cloud(cloud, labels, dim) && IsArgsort(labels, order) && Nondecreasing(labels) && i < |cloud|
    requires Lawful(partition) && Fits(neighbours, |cloud|)
    requires Scored(scores, cloud, labels, order, dim, neighbours, partition, root, i)
    requires j < |neighbours| && neighbours[j] >= Max(neighbours) - 1
    ensures |scores| == |neighbours|
    ensures var k := neighbours[j];
            if |set c | 0 <= c < |cloud| && labels[c] != labels[i]| < k then scores[j] == Infinite
            else exists picked :: |picked| == k && NearestOthers(cloud, labels, dim, i, picked)
                                  && scores[j] == Finite(root(Total(DistancesTo(cloud, dim, i, picked)) / k as real))
  {
    var row, kMax, k := MaskedRow(cloud, labels, order, dim, i), Max(neighbours), neighbours[j];
    var part, own := partition(row, kMax - 1), OwnFrames(labels, labels[i]);
    assert IsPartition(row, part, kMax - 1);
    PartitionLengths(row, part, kMax - 1);
    PartitionSplits(row, part, kMax - 1);
    MaskedRowIsOutside(cloud, labels, order, dim, i);
    MaskRemovesOwnEpisode(labels, order);
    assert scores[j] == RootOf(root, Mean(part[..k]));
    assert multiset(part) == multiset(RowOutside(cloud, dim, i, own));
    assert SplitsAt(part, k);
    assert Others(|cloud|, own) == set c | 0 <= c < |cloud| && labels[c] != labels[i];
    hide IsPartition, MaskedRow, RowOutside, MaskedColumns, IsArgsort, Scores, SplitsAt, Lawful;
    var picked := HeadPicks(cloud, dim, i, own, part, k);
    if |Others(|cloud|, own)| >= k {
      assert NearestOthers(cloud, labels, dim, i, picked);
    }
  }

  ghost predicate Bracketed(mean: Distance, cloud: seq<Vec>, dim: nat, i: nat, excluded: set<int>, kMax: nat, k: nat)
    requires Frames(cloud, dim) && i < |cloud| && 0 < k < kMax <= |cloud|
  {
    && Le(Nearest(cloud, dim, i, excluded, k), mean)
    && Le(mean, Mean(Sorted(RowOutside(cloud, dim, i, excluded))[kMax - 1 - k..kMax - 1]))
  }

  // The score for a smaller neighbour count: the root of a mean between the one
  // over the k nearest unmasked frames and the one over the k farthest of the
  // kMax - 1 nearest.
  lemma {:induction false} SmallScoresBracketed(scores: seq<Distance>, cloud: seq<Vec>, labels: seq<int>,
                                                order: seq<int>, dim: nat, neighbours: seq<nat>,
                                                partition: Partition, root: real -> real, i: nat, j: nat)
    requires Cloud(cloud, labels, dim) && IsArgsort(labels, order) && i < |cloud|
    requires Lawful(partition) && Fits(neighbours, |cloud|)
    requires Scored(scores, cloud, labels, order, dim, neighbours, partition, root, i)
    requires j < |neighbours| && neighbours[j] < Max(neighbours)
    ensures |scores| == |neighbours|
    ensures exists mean ::
              Bracketed(mean, cloud, dim, i, MaskedColumns(labels, order, labels[i]), Max(neighbours), neighbours[j])
              && scores[j] == if mean.Finite? then Finite(root(mean.square)) else Infinite
  {
    var part := ScoreIsRoot(scores, cloud, labels, order, dim, neighbours, partition, root, i, j);
    assert Frames(cloud, dim) && |labels| == |cloud|;
    hide *;
    MeanBracketed(cloud, labels, order, dim, i, part, Max(neighbours), neighbours[j]);
  }

  lemma MeanBracketed(cloud: seq<Vec>, labels: seq<int>, order: seq<int>, dim: nat, i: nat, part: seq<Distance>,
                      kMax: nat, k: nat)
    requires Cloud(cloud, labels, dim) && i < |cloud| == |part| && IsArgsort(labels, order)
    requires 0 < k < kMax <= |cloud|
    requires IsPartition(MaskedRow(cloud, labels, order, dim, i), part, kMax - 1)
    ensures Bracketed(Mean(part[..k]), cloud, dim, i, MaskedColumns(labels, order, labels[i]), kMax, k)
  {
    hide IsPartition, Nearest, MaskedRow, Mean, MaskedColumns, Le, Sorted, RowOutside, IsArgsort, Frames;
    KnnIsNearest(cloud, labels, order, dim, i, part, kMax, k);
  }

  lemma ScoreIsRoot(scores: seq<Distance>, cloud: seq<Vec>, labels: seq<int>, order: seq<int>, dim: nat,
                    neighbours: seq<nat>, partition: Partition, root: real -> real, i: nat, j: nat)
    returns (part: seq<Distance>)
    requires Cloud(cloud, labels, dim) && IsArgsort(labels, order) && i < |cloud|
    requires Lawful(partition) && Fits(neighbours, |cloud|) && j < |neighbours|
    requires Scored(scores, cloud, labels, order, dim, neighbours, partition, root, i)
    ensures |scores| == |neighbours| && |part| == |cloud|
    ensures IsPartition(MaskedRow(cloud, labels, order, dim, i), part, Max(neighbours) - 1)
    ensures 0 < neighbours[j] <= Max(neighbours) <= |cloud|
    ensures var mean := Mean(part[..neighbours[j]]);
            scores[j] == if mean.Finite? then Finite(root(mean.square)) else Infinite
  {
    hide MaskedRow, Mean;
    var row := MaskedRow(cloud, labels, order, dim, i);
    part := partition(row, Max(neighbours) - 1);
    assert IsPartition(row, part, Max(neighbours) - 1);
    PartitionLengths(row, part, Max(neighbours) - 1);
  }

  // What the masked search ranks is what the definition ranks, for every cloud
  // with these labels.
  ghost predicate AlwaysRight(labels: seq<int>, order: seq<int>)
    requires IsArgsort(labels, order)
  {
    forall cloud, dim: nat, i: nat, k: nat :: Cloud(cloud, labels, dim) && i < |cloud| && 0 < k <= |cloud| ==>
      Nearest(cloud, dim, i, MaskedColumns(labels, order, labels[i]), k) == BruteForce(cloud, labels, dim, i, k)
  }

  // On labels out of order some cloud is scored wrongly.
  lemma {:induction false} RightExactlyWhenSorted(labels: seq<int>, order: seq<int>)
    requires IsArgsort(labels, order)
    ensures AlwaysRight(labels, order) <==> Nondecreasing(labels)
  {
    hide MaskedColumns, OwnFrames, Nearest;
    MaskRemovesOwnEpisode(labels, order);
    if !MasksOwnEpisodes(labels, order) {
      var i: nat :| i < |labels| && MaskedColumns(labels, order, labels[i]) != OwnFrames(labels, labels[i]);
      SomeCloudDiffers(labels, order, i);
    }
  }

  // Frame i and one other at the origin, everything else one away.
  function Spike(n: nat, i: nat, c: nat): (cloud: seq<Vec>)
    ensures |cloud| == n && Frames(cloud, 1)
    ensures forall d :: 0 <= d < n ==> cloud[d] == if d == i || d == c then [0.0] else [1.0]
  {
    seq(n, d => if d == i || d == c then [0.0] else [1.0])
  }

  lemma SpikeDistances(n: nat, i: nat, c: nat, d: nat)
    requires i < n && c < n && d < n
    ensures SquaredDistance(Spike(n, i, c)[i], Spike(n, i, c)[d]) == 0.0 <==> d == i || d == c
  {
    var a, b := Spike(n, i, c)[i], Spike(n, i, c)[d];
    assert a[1..] == [] && b[1..] == [];
    assert SquaredDistance(a, b) == (a[0] - b[0]) * (a[0] - b[0]);
  }

  lemma SpikeNearest(n: nat, i: nat, c: nat, excluded: set<int>)
    requires i < n && c < n
    ensures Nearest(Spike(n, i, c), 1, i, excluded, 1) == Finite(0.0) <==> i !in excluded || c !in excluded
  {
    var cloud := Spike(n, i, c);
    NearestAtZero(cloud, 1, i, excluded);
    hide Nearest, SquaredDistance;
    forall d: nat | d < n
      ensures SquaredDistance(cloud[i], cloud[d]) == 0.0 <==> d == i || d == c
    {
      SpikeDistances(n, i, c, d);
    }
  }

  lemma SomeCloudDiffers(labels: seq<int>, order: seq<int>, i: nat)
    requires IsArgsort(labels, order) && i < |labels|
    requires MaskedColumns(labels, order, labels[i]) != OwnFrames(labels, labels[i])
    ensures !AlwaysRight(labels, order)
  {
    var n, masked, own := |labels|, MaskedColumns(labels, order, labels[i]), OwnFrames(labels, labels[i]);
    assert i in own && forall d :: d in own || d in masked ==> 0 <= d < n;
    var c: nat;
    if d :| d in own && d !in masked {
      c := d;
    } else {
      c :| c in masked && c !in own;
    }
    hide Nearest, MaskedColumns, OwnFrames, IsArgsort, Spike;
    SpikeNearest(n, i, c, masked);
    SpikeNearest(n, i, c, own);
    var cloud := Spike(n, i, c);
    assert Nearest(cloud, 1, i, masked, 1) != BruteForce(cloud, labels, 1, i, 1);
  }
}
