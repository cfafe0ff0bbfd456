// What conversion runs promise: the counts add up, a failure touches only its
// own episode, and a second run over finished work does nothing.
module ConversionTheorems {
  import opened Outcome
  import opened Sequences
  import opened EpisodeStore
  import opened Conversion

  // --------------------------------------------------------------- the counts

  // The skip branch runs to its end.
  predicate SkipsCleanly(world: World, targets: map<int, Dir>, inputs: Inputs, skip: SkipTrouble, force: bool) {
    var e := inputs.source.episode;
    && !force
    && Passes(world, targets, inputs, e)
    && targets[e].manifest.value.manifest.total.Number?
    && targets[e].manifest.value.manifest.valid.Number?
    && skip.Smooth?
  }

  // The skip branch lists the episode and then raises, so it is counted again
  // by the conversion that follows.
  predicate SkipRaises(world: World, targets: map<int, Dir>, inputs: Inputs, skip: SkipTrouble, force: bool) {
    var e := inputs.source.episode;
    && !force
    && Passes(world, targets, inputs, e)
    && !targets[e].manifest.value.manifest.valid.Missing?
    && !SkipsCleanly(world, targets, inputs, skip, force)
  }

  // How often an episode is counted beyond once: by a skip that raises after it
  // was listed, and by a report that raises after it was converted.
  function Repeats(world: World, targets: map<int, Dir>, inputs: Inputs, attempt: Attempt, force: bool): nat {
    (if SkipRaises(world, targets, inputs, attempt.skip, force) then 1 else 0)
    + (if attempt.build.Success? && attempt.trouble.Reporting?
          && !SkipsCleanly(world, targets, inputs, attempt.skip, force) then 1 else 0)
  }

  // The same over a selection, read off the targets before the run starts.
  function RepeatsIn(world: World, targets: map<int, Dir>, selection: seq<int>, sources: Sources, attempts: Attempts,
                     force: bool): nat
  {
    if selection == [] then 0
    else
      var n := |selection| - 1;
      RepeatsIn(world, targets, selection[..n], sources, attempts, force)
      + Repeats(world, targets, sources(selection[n]), attempts(selection[n]), force)
  }

  function Listed(t: Tally): nat {
    |t.converted| + |t.skipped| + |t.failed|
  }

  lemma EpisodeCounts(world: World, targets: map<int, Dir>, inputs: Inputs, attempt: Attempt, force: bool, t: Tally)
    ensures Listed(AfterEpisode(world, targets, inputs, attempt, force, t).1)
         == Listed(t) + 1 + Repeats(world, targets, inputs, attempt, force)
  {
    hide Passes;
    ConversionCounts(world, targets, inputs, attempt, t);
    if !force {
      SkipTestCounts(world, targets, inputs, attempt.skip, t);
      ConversionCounts(world, targets, inputs, attempt, AfterSkipTest(world, targets, inputs, attempt.skip, t).0);
    }
    hide AfterSkipTest, AfterConversion;
  }

  lemma ConversionCounts(world: World, targets: map<int, Dir>, inputs: Inputs, attempt: Attempt, t: Tally)
    ensures Listed(AfterConversion(world, targets, inputs, attempt, t).1)
         == Listed(t) + 1 + (if attempt.build.Success? && attempt.trouble.Reporting? then 1 else 0)
  {
    hide PairOf, Count, BytesOf, Emptied;
  }

  lemma SkipTestCounts(world: World, targets: map<int, Dir>, inputs: Inputs, skip: SkipTrouble, t: Tally)
    ensures var (after, done) := AfterSkipTest(world, targets, inputs, skip, t);
            && (done <==> SkipsCleanly(world, targets, inputs, skip, false))
            && Listed(after) == Listed(t) + (if done || SkipRaises(world, targets, inputs, skip, false) then 1 else 0)
  {
    hide BytesOf, Compatible;
  }

  // On any file system, for a selection without repetition: the three counts sum
  // to its size plus the episodes' repeats, which the targets before the run and
  // the exceptions met determine.
  lemma {:induction false} CountsAddUp(world: World, targets: map<int, Dir>, selection: seq<int>, sources: Sources,
                                       attempts: Attempts, force: bool)
    requires Distinct(selection) && Addresses(sources)
    ensures Listed(Through(world, targets, selection, sources, attempts, force).1)
         == |selection| + RepeatsIn(world, targets, selection, sources, attempts, force)
  {
    hide AfterEpisode, Repeats;
    if selection != [] {
      var n := |selection| - 1;
      CountsAddUp(world, targets, selection[..n], sources, attempts, force);
      var (before, t) := Through(world, targets, selection[..n], sources, attempts, force);
      EpisodeCounts(world, before, sources(selection[n]), attempts(selection[n]), force, t);
      StartAgrees(world, targets, selection[..n], sources, attempts, force, selection[n]);
      RepeatsFrame(world, targets, before, sources(selection[n]), attempts(selection[n]), force);
    }
  }

  // So they add up exactly when no selected episode is counted twice.
  lemma {:induction false} CountsExactWhen(world: World, targets: map<int, Dir>, selection: seq<int>, sources: Sources,
                                           attempts: Attempts, force: bool)
    requires Distinct(selection) && Addresses(sources)
    ensures Listed(Through(world, targets, selection, sources, attempts, force).1) == |selection|
       <==> forall i :: 0 <= i < |selection| ==>
              Repeats(world, targets, sources(selection[i]), attempts(selection[i]), force) == 0
  {
    CountsAddUp(world, targets, selection, sources, attempts, force);
    RepeatsVanish(world, targets, selection, sources, attempts, force);
  }

  lemma {:induction false} RepeatsVanish(world: World, targets: map<int, Dir>, selection: seq<int>, sources: Sources,
                                         attempts: Attempts, force: bool)
    ensures RepeatsIn(world, targets, selection, sources, attempts, force) == 0
       <==> forall i :: 0 <= i < |selection| ==>
              Repeats(world, targets, sources(selection[i]), attempts(selection[i]), force) == 0
  {
    hide Repeats;
    if selection != [] {
      var n := |selection| - 1;
      RepeatsVanish(world, targets, selection[..n], sources, attempts, force);
      assert forall i :: 0 <= i < n ==> selection[..n][i] == selection[i];
    }
  }

  // Earlier episodes leave a later one's target as it was.
  lemma {:induction false} StartAgrees(world: World, targets: map<int, Dir>, selection: seq<int>, sources: Sources,
                                       attempts: Attempts, force: bool, e: int)
    requires Addresses(sources) && e !in selection
    ensures var before := Through(world, targets, selection, sources, attempts, force).0;
            (e in before <==> e in targets) && (e in targets ==> before[e] == targets[e])
  {
    hide AfterEpisode;
    if selection != [] {
      var n := |selection| - 1;
      StartAgrees(world, targets, selection[..n], sources, attempts, force, e);
      var (before, t) := Through(world, targets, selection[..n], sources, attempts, force);
      var after := AfterEpisode(world, before, sources(selection[n]), attempts(selection[n]), force, t).0;
      OnlyOwnTarget(world, before, sources(selection[n]), attempts(selection[n]), force, t);
      OthersAgree(before, after, selection[n], [e]);
      assert [e][0] == e;
    }
  }

  lemma RepeatsFrame(world: World, a: map<int, Dir>, b: map<int, Dir>, inputs: Inputs, attempt: Attempt, force: bool)
    requires var e := inputs.source.episode; (e in a <==> e in b) && (e in a ==> a[e] == b[e])
    ensures Repeats(world, a, inputs, attempt, force) == Repeats(world, b, inputs, attempt, force)
  {
    hide Compatible;
  }

  // A witness: a pair whose manifest lacks the frame total is listed as skipped
  // and then converted, without anything else going wrong.
  lemma MissingTotalCountsTwice(world: World, inputs: Inputs, before: Artifact, built: Artifact)
    ensures var pair := PairOf(world, inputs, before);
            var found := pair.manifest.value.manifest.(total := Missing);
            var targets := map[inputs.source.episode := Dir(pair.action, Some(Json(found)))];
            var t := AfterEpisode(world, targets, inputs, Attempt(Success(built), true, Fine, Smooth), false,
                                  NOTHING_YET).1;
            |t.skipped| == 1 && |t.converted| == 1 && t.failed == []
  {
    hide Count, BytesOf;
  }

  // ------------------------------------------------- one episode's own target

  // Whatever an episode's attempt meets, other episodes' targets stay as they
  // were, and its own is in one of these states.
  lemma {:induction false} OnlyOwnTarget(world: World, targets: map<int, Dir>, inputs: Inputs, attempt: Attempt,
                                         force: bool, t: Tally)
    ensures var e := inputs.source.episode;
            var (after, summary) := AfterEpisode(world, targets, inputs, attempt, force, t);
            && Without(after, e) == Without(targets, e)
            && (summary.converted != t.converted ==>
                  attempt.build.Success? && e in after && after[e] == PairOf(world, inputs, attempt.build.value))
            && (summary.failed != t.failed ==>
                  || (e !in after && (e !in targets || attempt.trouble.Renaming?))
                  || (e in after && e in targets && LeftOf(after[e], targets[e]))
                  || (attempt.trouble in {Measuring, Reporting} && attempt.build.Success?
                      && e in after && after[e] == PairOf(world, inputs, attempt.build.value)))
            && (summary.failed == t.failed && summary.converted == t.converted ==> after == targets)
  {
    hide Passes, PairOf;
  }

  lemma AfterEpisodeSound(world: World, targets: map<int, Dir>, inputs: Inputs, attempt: Attempt, force: bool, t: Tally)
    requires Sound(world, targets)
    ensures Sound(world, AfterEpisode(world, targets, inputs, attempt, force, t).0)
  {
    hide AfterSkipTest, PairOf, IsPair, IsRemnant;
    var e := inputs.source.episode;
    if attempt.build.Success? {
      PairMade(world, inputs, attempt.build.value);
    }
    if e in targets {
      var dir := targets[e];
      UnlinkLeaves(world, e, dir, dir.(action := None));
      UnlinkLeaves(world, e, dir, dir.(manifest := None));
      UnlinkLeaves(world, e, dir.(action := None), Dir(None, None));
    }
  }

  lemma PairMade(world: World, inputs: Inputs, artifact: Artifact)
    ensures IsPair(world, inputs.source.episode, PairOf(world, inputs, artifact))
  {
  }

  lemma {:induction false} ThroughSound(world: World, targets: map<int, Dir>, selection: seq<int>, sources: Sources,
                                        attempts: Attempts, force: bool)
    requires Sound(world, targets)
    ensures Sound(world, Through(world, targets, selection, sources, attempts, force).0)
  {
    hide Sound, AfterEpisode;
    if selection != [] {
      var n := |selection| - 1;
      ThroughSound(world, targets, selection[..n], sources, attempts, force);
      var (before, t) := Through(world, targets, selection[..n], sources, attempts, force);
      AfterEpisodeSound(world, before, sources(selection[n]), attempts(selection[n]), force, t);
    }
  }

  ghost predicate Addresses(sources: Sources) {
    forall e :: sources(e).source.episode == e
  }

  // Over directories this converter wrote, an episode is counted beyond once only
  // when its skip or its report raises.
  lemma {:induction false} OwnManifestsAddUp(world: World, targets: map<int, Dir>, selection: seq<int>,
                                             sources: Sources,
                                             attempts: Attempts, force: bool)
    requires Sound(world, targets) && Distinct(selection) && Addresses(sources)
    requires forall i :: 0 <= i < |selection| ==>
               attempts(selection[i]).skip.Smooth? && !attempts(selection[i]).trouble.Reporting?
    ensures Listed(Through(world, targets, selection, sources, attempts, force).1) == |selection|
  {
    hide Sound, Repeats;
    forall i | 0 <= i < |selection|
      ensures Repeats(world, targets, sources(selection[i]), attempts(selection[i]), force) == 0
    {
      SoundSkipsOnce(world, targets, sources(selection[i]), attempts(selection[i]), force);
    }
    CountsExactWhen(world, targets, selection, sources, attempts, force);
  }

  lemma SoundSkipsOnce(world: World, targets: map<int, Dir>, inputs: Inputs, attempt: Attempt, force: bool)
    requires Sound(world, targets) && attempt.skip.Smooth? && !attempt.trouble.Reporting?
    ensures Repeats(world, targets, inputs, attempt, force) == 0
  {
    hide Sound;
    SkipsExactlyMatchingPairs(world, targets, inputs, inputs.source.episode);
  }

  // What the digest is for.  An action file exchanged behind a pair's manifest is
  // taken for the pair exactly when the two files' digests collide; otherwise an
  // untroubled attempt replaces both files.
  lemma {:induction false} ExchangedFileIsRedone(world: World, targets: map<int, Dir>, inputs: Inputs,
                                                 written: Artifact,
                                                 action: ActionFile, attempt: Attempt, t: Tally)
    requires inputs.source.episode in targets
    requires targets[inputs.source.episode] == PairOf(world, inputs, written).(action := Some(action))
    requires attempt.build.Success? && attempt.trouble.Fine? && attempt.skip.Smooth?
    ensures var e := inputs.source.episode;
            var (after, summary) := AfterEpisode(world, targets, inputs, attempt, false, t);
            if world.hash(action) == world.hash(Whole(written)) then
              after == targets && summary.converted == t.converted
            else
              && after[e] == PairOf(world, inputs, attempt.build.value)
              && |summary.converted| == |t.converted| + 1 && summary.skipped == t.skipped
  {
    hide Count, BytesOf;
  }

  // -------------------------------------------------------- the second run

  datatype Amounts = Amounts(frames: int, valid: int, bytes: int)

  function Plus(a: Amounts, b: Amounts): Amounts {
    Amounts(a.frames + b.frames, a.valid + b.valid, a.bytes + b.bytes)
  }

  function AmountsIn(t: Tally): Amounts {
    Amounts(t.frames, t.valid, t.bytes)
  }

  // The target passes the skip test and the skip branch runs to its end.
  ghost predicate Settled(world: World, targets: map<int, Dir>, inputs: Inputs) {
    && Passes(world, targets, inputs, inputs.source.episode)
    && var found := targets[inputs.source.episode].manifest.value.manifest;
       found.valid.Number? && found.total.Number?
  }

  ghost function WorthOf(world: World, targets: map<int, Dir>, e: int): Amounts {
    if e in targets && targets[e].manifest.Some? && targets[e].manifest.value.Json?
       && targets[e].manifest.value.manifest.valid.Number? && targets[e].manifest.value.manifest.total.Number?
    then
      var found := targets[e].manifest.value.manifest;
      Amounts(found.total.value, found.valid.value, BytesOf(world, targets[e]))
    else Amounts(0, 0, 0)
  }

  ghost function Worth(world: World, targets: map<int, Dir>, selection: seq<int>): Amounts {
    if selection == [] then Amounts(0, 0, 0)
    else
      var n := |selection| - 1;
      Plus(Worth(world, targets, selection[..n]), WorthOf(world, targets, selection[n]))
  }

  ghost predicate AgreeOn(a: map<int, Dir>, b: map<int, Dir>, selection: seq<int>) {
    forall i :: 0 <= i < |selection| ==>
      (selection[i] in a <==> selection[i] in b) && (selection[i] in a ==> a[selection[i]] == b[selection[i]])
  }

  lemma {:induction false} WorthFrame(world: World, a: map<int, Dir>, b: map<int, Dir>, selection: seq<int>)
    requires AgreeOn(a, b, selection)
    ensures Worth(world, a, selection) == Worth(world, b, selection)
  {
    hide WorthOf;
    if selection != [] {
      var n := |selection| - 1;
      WorthFrame(world, a, b, selection[..n]);
      SameWorth(world, a, b, selection[n]);
    }
  }

  lemma SameWorth(world: World, a: map<int, Dir>, b: map<int, Dir>, e: int)
    requires (e in a <==> e in b) && (e in a ==> a[e] == b[e])
    ensures WorthOf(world, a, e) == WorthOf(world, b, e)
  {
  }

  // An episode that neither failed nor was counted twice is settled, and the
  // totals grew by what its target is worth.
  lemma EpisodeSettles(world: World, targets: map<int, Dir>, inputs: Inputs, attempt: Attempt, force: bool, t: Tally)
    requires AfterEpisode(world, targets, inputs, attempt, force, t).1.failed == t.failed
    requires Repeats(world, targets, inputs, attempt, force) == 0
    ensures var (after, summary) := AfterEpisode(world, targets, inputs, attempt, force, t);
            && Settled(world, after, inputs)
            && AmountsIn(summary) == Plus(AmountsIn(t), WorthOf(world, after, inputs.source.episode))
  {
    assert t.failed + [inputs.source.episode] != t.failed;
  }

  lemma {:induction false} FailedGrows(world: World, targets: map<int, Dir>, inputs: Inputs, attempt: Attempt,
                                       force: bool, t: Tally)
    ensures |t.failed| <= |AfterEpisode(world, targets, inputs, attempt, force, t).1.failed|
  {
    hide Passes;
  }

  // A finished selection: every episode settled, the totals what they are worth.
  ghost predicate Finished(world: World, targets: map<int, Dir>, selection: seq<int>, sources: Sources) {
    forall i :: 0 <= i < |selection| ==> Settled(world, targets, sources(selection[i]))
  }

  // A run without failure whose counts add up leaves every selected episode
  // settled, and reports what their targets are worth.
  lemma {:induction false} RunFinishes(world: World, targets: map<int, Dir>, selection: seq<int>, sources: Sources,
                                       attempts: Attempts, force: bool)
    requires Distinct(selection) && Addresses(sources)
    requires var t := Through(world, targets, selection, sources, attempts, force).1;
             t.failed == [] && |t.converted| + |t.skipped| == |selection|
    ensures var (after, t) := Through(world, targets, selection, sources, attempts, force);
            Finished(world, after, selection, sources) && AmountsIn(t) == Worth(world, after, selection)
  {
    hide Finished, Worth;
    CountsAddUp(world, targets, selection, sources, attempts, force);
    UnrepeatedFinishes(world, targets, selection, sources, attempts, force);
  }

  lemma {:induction false} UnrepeatedFinishes(world: World, targets: map<int, Dir>, selection: seq<int>,
                                              sources: Sources,
                                              attempts: Attempts, force: bool)
    requires Distinct(selection) && Addresses(sources)
    requires Through(world, targets, selection, sources, attempts, force).1.failed == []
    requires RepeatsIn(world, targets, selection, sources, attempts, force) == 0
    ensures var (after, t) := Through(world, targets, selection, sources, attempts, force);
            Finished(world, after, selection, sources) && AmountsIn(t) == Worth(world, after, selection)
  {
    hide AfterEpisode, Repeats, WorthOf, Settled;
    if selection != [] {
      var n := |selection| - 1;
      var front, inputs := selection[..n], sources(selection[n]);
      var (before, t) := Through(world, targets, front, sources, attempts, force);
      var (after, summary) := AfterEpisode(world, before, inputs, attempts(selection[n]), force, t);
      FailedGrows(world, before, inputs, attempts(selection[n]), force, t);
      UnrepeatedFinishes(world, targets, front, sources, attempts, force);
      StartAgrees(world, targets, front, sources, attempts, force, selection[n]);
      RepeatsFrame(world, targets, before, inputs, attempts(selection[n]), force);
      EpisodeSettles(world, before, inputs, attempts(selection[n]), force, t);
      OnlyOwnTarget(world, before, inputs, attempts(selection[n]), force, t);
      OthersAgree(before, after, selection[n], front);
      WorthFrame(world, before, after, front);
      forall i | 0 <= i < n
        ensures Settled(world, after, sources(selection[i]))
      {
        assert front[i] == selection[i];
        SettledFrame(world, before, after, sources(front[i]));
      }
    }
  }

  lemma OthersAgree(a: map<int, Dir>, b: map<int, Dir>, e: int, selection: seq<int>)
    requires Without(a, e) == Without(b, e) && e !in selection
    ensures AgreeOn(a, b, selection)
  {
    forall i | 0 <= i < |selection|
      ensures selection[i] in a <==> selection[i] in b
      ensures selection[i] in a ==> a[selection[i]] == b[selection[i]]
    {
      var k := selection[i];
      assert k in selection;
      assert k in Without(a, e) <==> k in Without(b, e);
    }
  }

  lemma SettledFrame(world: World, a: map<int, Dir>, b: map<int, Dir>, inputs: Inputs)
    requires var e := inputs.source.episode; (e in a <==> e in b) && (e in a ==> a[e] == b[e])
    ensures Settled(world, a, inputs) == Settled(world, b, inputs)
  {
  }

  lemma SettledSkips(world: World, targets: map<int, Dir>, inputs: Inputs, attempt: Attempt, t: Tally)
    requires Settled(world, targets, inputs) && attempt.skip.Smooth?
    ensures var (after, summary) := AfterEpisode(world, targets, inputs, attempt, false, t);
            && after == targets && summary.converted == t.converted && summary.failed == t.failed
            && |summary.skipped| == |t.skipped| + 1
            && AmountsIn(summary) == Plus(AmountsIn(t), WorthOf(world, targets, inputs.source.episode))
  {
  }

  lemma {:induction false} FinishedIsSkipped(world: World, targets: map<int, Dir>, selection: seq<int>,
                                             sources: Sources,
                                             attempts: Attempts)
    requires Addresses(sources) && Finished(world, targets, selection, sources)
    requires forall e :: attempts(e).skip.Smooth?
    ensures var (after, t) := Through(world, targets, selection, sources, attempts, false);
            && after == targets && t.converted == [] && t.failed == [] && |t.skipped| == |selection|
            && AmountsIn(t) == Worth(world, targets, selection)
  {
    hide AfterEpisode, WorthOf, Settled;
    if selection != [] {
      var n := |selection| - 1;
      var front := selection[..n];
      FinishedIsSkipped(world, targets, front, sources, attempts);
      var (before, t) := Through(world, targets, front, sources, attempts, false);
      SettledSkips(world, targets, sources(selection[n]), attempts(selection[n]), t);
    }
  }

  ghost predicate Untroubled(attempt: Attempt) {
    attempt.build.Success? && attempt.trouble.Fine? && attempt.skip.Smooth?
  }

  lemma UntroubledFailsNot(world: World, targets: map<int, Dir>, inputs: Inputs, attempt: Attempt, force: bool,
                           t: Tally)
    requires Untroubled(attempt)
    ensures AfterEpisode(world, targets, inputs, attempt, force, t).1.failed == t.failed
  {
    hide Passes, PairOf, Count, BytesOf, Emptied;
  }

  lemma {:induction false} UntroubledFailsNever(world: World, targets: map<int, Dir>, selection: seq<int>,
                                                sources: Sources, attempts: Attempts, force: bool)
    requires forall i :: 0 <= i < |selection| ==> Untroubled(attempts(selection[i]))
    ensures Through(world, targets, selection, sources, attempts, force).1.failed == []
  {
    if selection != [] {
      var n := |selection| - 1;
      hide AfterEpisode, Untroubled;
      assert forall i :: 0 <= i < n ==> selection[..n][i] == selection[i];
      UntroubledFailsNever(world, targets, selection[..n], sources, attempts, force);
      var (before, t) := Through(world, targets, selection[..n], sources, attempts, force);
      UntroubledFailsNot(world, before, sources(selection[n]), attempts(selection[n]), force, t);
    }
  }

  // Whatever runs there were and wherever the last was cut short, one untroubled
  // run settles the selection and reports what its targets are worth.
  lemma {:induction false} OneRunSettles(world: World, states: seq<State>, k: nat, selection: seq<int>,
                                         sources: Sources, attempts: Attempts, force: bool)
    requires Execution(world, states) && k < |states|
    requires Holds(world, states[0]) && Sound(world, states[0].fs.targets)
    requires Distinct(selection) && Addresses(sources)
    requires forall i :: 0 <= i < |selection| ==> Untroubled(attempts(selection[i]))
    ensures var (after, t) := Through(world, states[k].fs.targets, selection, sources, attempts, force);
            && Sound(world, after) && Finished(world, after, selection, sources)
            && t.failed == [] && AmountsIn(t) == Worth(world, after, selection)
  {
    hide Execution, Holds, Sound, Finished, Worth, Through;
    var targets := states[k].fs.targets;
    EveryStateSound(world, states, k);
    ThroughSound(world, targets, selection, sources, attempts, force);
    UntroubledFailsNever(world, targets, selection, sources, attempts, force);
    OwnManifestsAddUp(world, targets, selection, sources, attempts, force);
    RunFinishes(world, targets, selection, sources, attempts, force);
  }

  // A run whose summary shows no failure and counts that add up has finished
  // its selection.  A second one over the same inputs and without `--force`
  // converts nothing, changes nothing and reports the same totals.
  lemma {:induction false} SecondRunDoesNothing(world: World, targets: map<int, Dir>, selection: seq<int>,
                                                sources: Sources,
                                                first: Attempts, force: bool, second: Attempts)
    requires Distinct(selection) && Addresses(sources)
    requires forall e :: second(e).skip.Smooth?
    requires var t := Through(world, targets, selection, sources, first, force).1;
             t.failed == [] && |t.converted| + |t.skipped| == |selection|
    ensures var (after, t) := Through(world, targets, selection, sources, first, force);
            var (again, u) := Through(world, after, selection, sources, second, false);
            && again == after
            && u.converted == [] && u.failed == [] && |u.skipped| == |selection|
            && u.frames == t.frames && u.valid == t.valid && u.bytes == t.bytes
  {
    hide Finished, Worth;
    RunFinishes(world, targets, selection, sources, first, force);
    var after := Through(world, targets, selection, sources, first, force).0;
    FinishedIsSkipped(world, after, selection, sources, second);
  }
}
