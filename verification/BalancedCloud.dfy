// The fixed-seed balanced sample: the same number of frames from every
// episode, drawn without replacement.
module BalancedCloud {
  import opened Outcome
  import opened Sequences
  import LeaveOneOut

  // The sorted result of drawing `take` of `size` rows without replacement, on
  // the n-th draw of the seeded generator.
  type Sampler = (nat, nat, nat) -> seq<nat>

  ghost predicate DrawsDistinct(sample: Sampler) {
    forall draw: nat, size: nat, take: nat :: take <= size ==>
      && |sample(draw, size, take)| == take
      && Ascending(sample(draw, size, take))
      && forall i :: 0 <= i < take ==> sample(draw, size, take)[i] < size
  }

  // `flatnonzero(owners == episode)`
  function RowsOf(owners: seq<int>, episode: int): (rows: seq<nat>)
  {
    if owners == [] then []
    else
      var n := |owners| - 1;
      RowsOf(owners[..n], episode) + (if owners[n] == episode then [n] else [])
  }

  lemma {:induction false} RowsOfAreOwned(owners: seq<int>, episode: int)
    ensures forall i :: 0 <= i < |RowsOf(owners, episode)| ==>
              RowsOf(owners, episode)[i] < |owners| && owners[RowsOf(owners, episode)[i]] == episode
    ensures Ascending(RowsOf(owners, episode))
    ensures RowsOf(owners, episode) == [] <==> episode !in owners
  {
    if owners != [] {
      var n := |owners| - 1;
      RowsOfAreOwned(owners[..n], episode);
      assert owners == owners[..n] + [owners[n]];
    }
  }

  // None of its frames is left out.
  lemma {:induction false} RowsOfHasAll(owners: seq<int>, episode: int, k: nat)
    requires k < |owners| && owners[k] == episode
    ensures k in RowsOf(owners, episode)
    decreases |owners|
  {
    if k < |owners| - 1 {
      RowsOfHasAll(owners[..|owners| - 1], episode, k);
    }
  }

  function Take(owners: seq<int>, episode: int, perEpisode: nat): nat {
    if perEpisode < |RowsOf(owners, episode)| then perEpisode else |RowsOf(owners, episode)|
  }

  // An episode's share: the number asked for, or all its frames when they are fewer.
  lemma {:induction false} TakeIsShare(owners: seq<int>, episode: int, perEpisode: nat)
    ensures var own := |set k | 0 <= k < |owners| && owners[k] == episode|;
            Take(owners, episode, perEpisode) == if perEpisode < own then perEpisode else own
  {
    RowsCounted(owners, episode);
  }

  lemma {:induction false} RowsCounted(owners: seq<int>, episode: int)
    ensures |RowsOf(owners, episode)| == |set k | 0 <= k < |owners| && owners[k] == episode|
  {
    var all := set k | 0 <= k < |owners| && owners[k] == episode;
    if owners == [] {
      assert all == {};
    } else {
      var n := |owners| - 1;
      assert RowsOf(owners, episode) == RowsOf(owners[..n], episode) + (if owners[n] == episode then [n] else []);
      RowsCounted(owners[..n], episode);
      hide RowsOf;
      var front := set k | 0 <= k < n && owners[..n][k] == episode;
      assert all == if owners[n] == episode then front + {n} else front;
    }
  }

  lemma {:induction false} RepeatedLabel(n: nat, owner: int, episode: int)
    ensures multiset(Repeated(n, owner))[episode] == if episode == owner then n else 0
    decreases n
  {
    if n > 0 {
      RepeatedLabel(n - 1, owner, episode);
      assert Repeated(n, owner) == Repeated(n - 1, owner) + [owner];
    }
  }

  // Every pick is a frame of the episode it is labelled with, and labels come
  // in episode order.
  ghost predicate Labelled(owners: seq<int>, episodes: seq<int>, picks: seq<nat>, labels: seq<int>) {
    && |picks| == |labels|
    && (forall p :: 0 <= p < |picks| ==> picks[p] < |owners| && owners[picks[p]] == labels[p])
    && (forall p :: 0 <= p < |labels| ==> labels[p] in episodes)
    && (LeaveOneOut.Nondecreasing(episodes) ==> LeaveOneOut.Nondecreasing(labels))
  }

  // No frame is picked twice, and every episode gives its share.
  ghost predicate Balanced(owners: seq<int>, episodes: seq<int>, perEpisode: nat, picks: seq<nat>, labels: seq<int>) {
    && Distinct(picks)
    && (forall episode :: episode in episodes ==> multiset(labels)[episode] == Take(owners, episode, perEpisode))
  }

  ghost predicate Frames(owners: seq<int>, episode: int, picked: seq<nat>) {
    Distinct(picked) && forall i :: 0 <= i < |picked| ==> picked[i] < |owners| && owners[picked[i]] == episode
  }

  lemma LabelledExtends(owners: seq<int>, episodes: seq<int>, episode: int, picks: seq<nat>, labels: seq<int>,
                        picked: seq<nat>)
    requires Labelled(owners, episodes, picks, labels) && Frames(owners, episode, picked)
    ensures Labelled(owners, episodes + [episode], picks + picked, labels + Repeated(|picked|, episode))
  {
    var longer := episodes + [episode];
    var all := labels + Repeated(|picked|, episode);
    if LeaveOneOut.Nondecreasing(longer) {
      assert forall i, j :: 0 <= i <= j < |episodes| ==> episodes[i] == longer[i] && episodes[j] == longer[j];
      forall e | e in episodes
        ensures e <= episode
      {
        var i :| 0 <= i < |episodes| && episodes[i] == e;
        assert longer[i] <= longer[|episodes|];
      }
    }
  }

  lemma BalancedExtends(owners: seq<int>, episodes: seq<int>, episode: int, perEpisode: nat, picks: seq<nat>,
                        labels: seq<int>, picked: seq<nat>)
    requires Labelled(owners, episodes, picks, labels) && Frames(owners, episode, picked)
    requires Balanced(owners, episodes, perEpisode, picks, labels)
    requires episode !in episodes && |picked| == Take(owners, episode, perEpisode)
    ensures Balanced(owners, episodes + [episode], perEpisode, picks + picked, labels + Repeated(|picked|, episode))
  {
    assert multiset(labels)[episode] == 0;
    forall e | e in episodes + [episode]
      ensures multiset(labels + Repeated(|picked|, episode))[e] == Take(owners, e, perEpisode)
    {
      RepeatedLabel(|picked|, episode, e);
    }
  }

  // Draws from one episode.
  method Draw(owners: seq<int>, episode: int, perEpisode: nat, sample: Sampler, draws: nat) returns (picked: seq<nat>)
    requires DrawsDistinct(sample) && RowsOf(owners, episode) != []
    ensures Frames(owners, episode, picked) && |picked| == Take(owners, episode, perEpisode)
    ensures Ascending(picked)
  {
    var rows := RowsOf(owners, episode);
    var take := if perEpisode < |rows| then perEpisode else |rows|;
    var chosen := sample(draws, |rows|, take);
    RowsOfAreOwned(owners, episode);
    picked := seq(take, i requires 0 <= i < take => rows[chosen[i]]);
  }

  // One turn of the episode loop; an episode without frames is skipped.
  method Visit(owners: seq<int>, ghost visited: seq<int>, episode: int, perEpisode: nat, sample: Sampler, draws: nat,
               picks: seq<nat>, labels: seq<int>)
    returns (morePicks: seq<nat>, moreLabels: seq<int>, moreDraws: nat)
    requires DrawsDistinct(sample) && Labelled(owners, visited, picks, labels)
    ensures Labelled(owners, visited + [episode], morePicks, moreLabels)
    ensures episode !in visited && Balanced(owners, visited, perEpisode, picks, labels) ==>
              Balanced(owners, visited + [episode], perEpisode, morePicks, moreLabels)
    ensures moreDraws == if episode in owners then draws + 1 else draws
  {
    RowsOfAreOwned(owners, episode);
    var picked: seq<nat> := [];
    moreDraws := draws;
    if RowsOf(owners, episode) != [] {
      picked := Draw(owners, episode, perEpisode, sample, draws);
      moreDraws := draws + 1;
    }
    LabelledExtends(owners, visited, episode, picks, labels, picked);
    if episode !in visited && Balanced(owners, visited, perEpisode, picks, labels) {
      BalancedExtends(owners, visited, episode, perEpisode, picks, labels, picked);
    }
    morePicks := picks + picked;
    moreLabels := labels + Repeated(|picked|, episode);
  }

  // Visiting the episodes in ascending order gives nondecreasing labels, which
  // is what the masking of the nearest-neighbour search relies on.
  method Build(owners: seq<int>, episodes: seq<int>, perEpisode: nat, sample: Sampler)
    returns (r: Result<(seq<nat>, seq<int>), string>)
    requires DrawsDistinct(sample)
    ensures r.Failure? <==> forall e :: 0 <= e < |episodes| ==> episodes[e] !in owners
    ensures r.Success? ==> Labelled(owners, episodes, r.value.0, r.value.1)
    ensures r.Success? && Distinct(episodes) ==> Balanced(owners, episodes, perEpisode, r.value.0, r.value.1)
  {
    var picks: seq<nat>, labels: seq<int> := [], [];
    var draws: nat := 0;
    for n := 0 to |episodes|
      invariant draws == 0 <==> forall e :: 0 <= e < n ==> episodes[e] !in owners
      invariant Labelled(owners, episodes[..n], picks, labels)
      invariant Distinct(episodes) ==> Balanced(owners, episodes[..n], perEpisode, picks, labels)
    {
      assert episodes[..n + 1] == episodes[..n] + [episodes[n]];
      picks, labels, draws :=
        Visit(owners, episodes[..n], episodes[n], perEpisode, sample, draws, picks, labels);
    }
    assert episodes[..|episodes|] == episodes;
    if draws == 0 {
      return Failure("balanced cloud sampled no frames");
    }
    return Success((picks, labels));
  }
}
