// The figures a conversion writes and adds up, counted from the artifacts
// themselves.
module ConversionFigures {
  import opened Outcome
  import opened Sequences
  import opened EpisodeStore
  import opened Conversion
  import opened ConversionTheorems

  ghost function ValidFrames(artifact: Artifact): nat {
    |set k | 0 <= k < |artifact.valid| && artifact.valid[k]|
  }

  // The number written is the number of frames marked valid.
  lemma {:induction false} CountIsCardinality(valid: seq<bool>)
    ensures Count(valid) == |set k | 0 <= k < |valid| && valid[k]|
  {
    CountFrom(valid, 0);
    assert valid[0..] == valid;
  }

  lemma {:induction false} CountFrom(valid: seq<bool>, i: nat)
    requires i <= |valid|
    ensures Count(valid[i..]) == |set k | i <= k < |valid| && valid[k]|
    decreases |valid| - i
  {
    var here := set k | i <= k < |valid| && valid[k];
    if i < |valid| {
      CountFrom(valid, i + 1);
      var later := set k | i + 1 <= k < |valid| && valid[k];
      assert here == if valid[i] then later + {i} else later;
      assert valid[i..][1..] == valid[i + 1..];
    } else {
      assert here == {};
    }
  }

  // The two files of an episode's conversion, field by field.
  ghost predicate Describes(world: World, inputs: Inputs, artifact: Artifact, dir: Dir) {
    && dir.action == Some(Whole(artifact))
    && dir.manifest.Some? && dir.manifest.value.Json?
    && var m := dir.manifest.value.manifest;
       && m.schema == Some(1) && m.source == Some(inputs.source) && m.encoderSha == Some(inputs.encoderSha)
       && m.configSha == Some(inputs.configSha) && m.bundleSha == Some(inputs.bundleSha)
       && m.commit == Some(inputs.commit)
       && m.total == Number(|artifact.action|) && m.valid == Number(ValidFrames(artifact))
       && m.outputSha == Some(world.hash(Whole(artifact)))
  }

  // The episode's entry in the summary: its frames, the valid ones, and the sizes
  // of its two files.
  ghost predicate Figures(world: World, e: int, artifact: Artifact, dir: Dir, entry: Converted)
    requires dir.action.Some? && dir.manifest.Some?
  {
    && entry.episode == e
    && entry.frames == |artifact.action| && entry.valid == ValidFrames(artifact)
    && entry.bytes == world.actionSize(dir.action.value) + world.manifestSize(dir.manifest.value)
  }

  lemma PairDescribes(world: World, inputs: Inputs, artifact: Artifact)
    ensures Describes(world, inputs, artifact, PairOf(world, inputs, artifact))
  {
    CountIsCardinality(artifact.valid);
  }

  function Totals(entries: seq<Converted>): Amounts {
    if entries == [] then Amounts(0, 0, 0)
    else
      var n := |entries| - 1;
      var t := Totals(entries[..n]);
      Amounts(t.frames + entries[n].frames, t.valid + entries[n].valid, t.bytes + entries[n].bytes)
  }

  // One untroubled conversion: the directory it leaves, the entry it adds, and
  // what the totals grow by.
  lemma EpisodeFigures(world: World, targets: map<int, Dir>, inputs: Inputs, attempt: Attempt, force: bool, t: Tally)
    returns (entry: Converted)
    requires Untroubled(attempt) && (force || inputs.source.episode !in targets)
    ensures var e, artifact := inputs.source.episode, attempt.build.value;
            var (after, summary) := AfterEpisode(world, targets, inputs, attempt, force, t);
            && e in after && Describes(world, inputs, artifact, after[e])
            && Figures(world, e, artifact, after[e], entry)
            && summary == Tally(t.converted + [entry], t.skipped, t.failed,
                                t.frames + entry.frames, t.valid + entry.valid, t.bytes + entry.bytes)
  {
    var e, artifact := inputs.source.episode, attempt.build.value;
    var pair := PairOf(world, inputs, artifact);
    PairDescribes(world, inputs, artifact);
    CountIsCardinality(artifact.valid);
    hide Count, Emptied, Compatible;
    entry := Converted(e, |artifact.action|, Count(artifact.valid), BytesOf(world, pair));
  }

  // What a run leaves for one of its episodes.
  ghost predicate Written(world: World, after: map<int, Dir>, inputs: Inputs, attempt: Attempt, entry: Converted) {
    var e := inputs.source.episode;
    attempt.build.Success? && e in after && Describes(world, inputs, attempt.build.value, after[e])
    && Figures(world, e, attempt.build.value, after[e], entry)
  }

  // An untroubled run over episodes that have no target yet, or a forced one over
  // any: every episode's directory and entry say what its artifact holds, and the
  // run's totals are the sums of the entries.
  lemma {:induction false} RunFigures(world: World, targets: map<int, Dir>, selection: seq<int>, sources: Sources,
                                      attempts: Attempts, force: bool)
    requires Distinct(selection) && Addresses(sources)
    requires forall i :: 0 <= i < |selection| ==>
               Untroubled(attempts(selection[i])) && (force || selection[i] !in targets)
    ensures var (after, t) := Through(world, targets, selection, sources, attempts, force);
            && |t.converted| == |selection| && t.skipped == [] && t.failed == []
            && (forall i :: 0 <= i < |selection| ==>
                  Written(world, after, sources(selection[i]), attempts(selection[i]), t.converted[i]))
            && AmountsIn(t) == Totals(t.converted)
  {
    hide AfterEpisode, Written, Untroubled, Describes, Figures;
    if selection != [] {
      var n := |selection| - 1;
      var front, inputs, attempt := selection[..n], sources(selection[n]), attempts(selection[n]);
      ThroughOneMore(world, targets, selection, sources, attempts, force);
      FrontDistinct(selection);
      hide Through, Distinct;
      RunFigures(world, targets, front, sources, attempts, force);
      var (before, t) := Through(world, targets, front, sources, attempts, force);
      StartAgrees(world, targets, front, sources, attempts, force, selection[n]);
      var entry := EpisodeFigures(world, before, inputs, attempt, force, t);
      var (after, summary) := AfterEpisode(world, before, inputs, attempt, force, t);
      UntroubledBuilds(attempt);
      WrittenIs(world, after, inputs, attempt, entry);
      EarlierStay(world, before, inputs, attempt, force, t, front, sources, attempts);
      assert summary.converted[..n] == t.converted;
    }
  }

  lemma FrontDistinct(selection: seq<int>)
    requires Distinct(selection) && selection != []
    ensures var n := |selection| - 1; Distinct(selection[..n]) && selection[n] !in selection[..n]
    ensures forall i :: 0 <= i < |selection| - 1 ==> selection[..|selection| - 1][i] == selection[i]
  {
  }

  lemma ThroughOneMore(world: World, targets: map<int, Dir>, selection: seq<int>, sources: Sources,
                       attempts: Attempts, force: bool)
    requires selection != []
    ensures var n := |selection| - 1;
            var (before, t) := Through(world, targets, selection[..n], sources, attempts, force);
            Through(world, targets, selection, sources, attempts, force)
            == AfterEpisode(world, before, sources(selection[n]), attempts(selection[n]), force, t)
  {
    hide AfterEpisode;
  }

  lemma UntroubledBuilds(attempt: Attempt)
    requires Untroubled(attempt)
    ensures attempt.build.Success?
  {
  }

  // An episode leaves what was written for earlier ones as it is.
  lemma EarlierStay(world: World, before: map<int, Dir>, inputs: Inputs, attempt: Attempt, force: bool, t: Tally,
                    front: seq<int>, sources: Sources, attempts: Attempts)
    requires inputs.source.episode !in front && Addresses(sources) && |t.converted| == |front|
    requires forall i :: 0 <= i < |front| ==>
               Written(world, before, sources(front[i]), attempts(front[i]), t.converted[i])
    ensures var after := AfterEpisode(world, before, inputs, attempt, force, t).0;
            forall i :: 0 <= i < |front| ==>
              Written(world, after, sources(front[i]), attempts(front[i]), t.converted[i])
  {
    hide AfterEpisode, Written;
    var after := AfterEpisode(world, before, inputs, attempt, force, t).0;
    OnlyOwnTarget(world, before, inputs, attempt, force, t);
    OthersAgree(before, after, inputs.source.episode, front);
    forall i | 0 <= i < |front|
      ensures Written(world, after, sources(front[i]), attempts(front[i]), t.converted[i])
    {
      assert AgreeOn(before, after, front) && sources(front[i]).source.episode == front[i];
      WrittenFrame(world, before, after, sources(front[i]), attempts(front[i]), t.converted[i]);
    }
  }

  lemma WrittenIs(world: World, after: map<int, Dir>, inputs: Inputs, attempt: Attempt, entry: Converted)
    requires var e := inputs.source.episode;
             attempt.build.Success? && e in after && Describes(world, inputs, attempt.build.value, after[e])
             && Figures(world, e, attempt.build.value, after[e], entry)
    ensures Written(world, after, inputs, attempt, entry)
  {
  }

  lemma WrittenFrame(world: World, before: map<int, Dir>, after: map<int, Dir>, inputs: Inputs, attempt: Attempt,
                     entry: Converted)
    requires Written(world, before, inputs, attempt, entry)
    requires var e := inputs.source.episode; e in before ==> e in after && before[e] == after[e]
    ensures Written(world, after, inputs, attempt, entry)
  {
  }
}
