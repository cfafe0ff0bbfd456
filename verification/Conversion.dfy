// One conversion run over a selection: skip, convert or fail each episode, and
// count what happened.
module Conversion {
  import opened Outcome
  import opened EpisodeStore

  datatype Converted = Converted(episode: int, frames: int, valid: int, bytes: int)

  datatype Skipped = Skipped(episode: int, valid: Field)

  datatype Tally = Tally(converted: seq<Converted>, skipped: seq<Skipped>, failed: seq<int>, frames: int, valid: int,
                         bytes: int)

  const NOTHING_YET := Tally([], [], [], 0, 0, 0)

  // Where, if anywhere, converting an episode raises once it has been built:
  // clearing the old target may stop after any number of its files.
  datatype Trouble = Fine | SavingAction | SavingManifest | Clearing(removed: nat) | Renaming | Measuring | Reporting

  // Where the skip branch raises once the old manifest's counts have been read.
  datatype SkipTrouble = Smooth | SizeRaises | ReportRaises

  // What one attempt meets: the built artifact or an error, the order in which
  // the old directory's files come up for removal, and the steps that raise.
  datatype Attempt = Attempt(build: Result<Artifact, string>, actionFirst: bool, trouble: Trouble, skip: SkipTrouble)

  // ------------------------------------------------- what a run comes down to

  function BytesOf(world: World, dir: Dir): nat {
    (if dir.action.Some? then world.actionSize(dir.action.value) else 0)
    + (if dir.manifest.Some? then world.manifestSize(dir.manifest.value) else 0)
  }

  // The skip branch.  An exception in it loses nothing already counted: the
  // episode is converted as well.
  function AfterSkipTest(world: World, targets: map<int, Dir>, inputs: Inputs, skip: SkipTrouble, t: Tally)
    : (Tally, bool)
  {
    var e := inputs.source.episode;
    if !Passes(world, targets, inputs, e) then (t, false)
    else
      var found := targets[e].manifest.value.manifest;
      if found.valid.Missing? then (t, false)
      else
        var listed := t.(skipped := t.skipped + [Skipped(e, found.valid)]);
        if !found.total.Number? then (listed, false)
        else
          var framed := listed.(frames := t.frames + found.total.value);
          if !found.valid.Number? then (framed, false)
          else
            var counted := framed.(valid := t.valid + found.valid.value);
            if skip.SizeRaises? then (counted, false)
            else (counted.(bytes := t.bytes + BytesOf(world, targets[e])), skip.Smooth?)
  }

  // A directory after the first n of its two file names have been removed.
  function Emptied(dir: Dir, actionFirst: bool, n: nat): Dir {
    if n == 0 then dir
    else if n >= 2 then Dir(None, None)
    else if actionFirst then dir.(action := None) else dir.(manifest := None)
  }

  function Failed(t: Tally, episode: int): Tally {
    t.(failed := t.failed + [episode])
  }

  function AfterConversion(world: World, targets: map<int, Dir>, inputs: Inputs, attempt: Attempt, t: Tally)
    : (map<int, Dir>, Tally)
  {
    var e := inputs.source.episode;
    if attempt.build.Failure? || attempt.trouble.SavingAction? || attempt.trouble.SavingManifest? then
      (targets, Failed(t, e))
    else if attempt.trouble.Clearing? && e in targets then
      (targets[e := Emptied(targets[e], attempt.actionFirst, attempt.trouble.removed)], Failed(t, e))
    else if attempt.trouble.Renaming? then (Without(targets, e), Failed(t, e))
    else
      var pair := PairOf(world, inputs, attempt.build.value);
      (targets[e := pair], AfterRename(world, pair, e, attempt.build.value, attempt.trouble, t))
  }

  function AfterRename(world: World, pair: Dir, e: int, artifact: Artifact, trouble: Trouble, t: Tally): Tally {
    if trouble.Measuring? then Failed(t, e)
    else
      var frames, valid, bytes := |artifact.action|, Count(artifact.valid), BytesOf(world, pair);
      var counted := Tally(t.converted + [Converted(e, frames, valid, bytes)], t.skipped, t.failed,
                           t.frames + frames, t.valid + valid, t.bytes + bytes);
      if trouble.Reporting? then Failed(counted, e) else counted
  }

  function AfterEpisode(world: World, targets: map<int, Dir>, inputs: Inputs, attempt: Attempt, force: bool, t: Tally)
    : (map<int, Dir>, Tally)
  {
    var (after, done) := if force then (t, false) else AfterSkipTest(world, targets, inputs, attempt.skip, t);
    if done then (targets, after) else AfterConversion(world, targets, inputs, attempt, after)
  }

  type Sources = int -> Inputs

  type Attempts = int -> Attempt

  function Through(world: World, targets: map<int, Dir>, selection: seq<int>, sources: Sources, attempts: Attempts,
                   force: bool)
    : (map<int, Dir>, Tally)
  {
    if selection == [] then (targets, NOTHING_YET)
    else
      var n := |selection| - 1;
      var (before, t) := Through(world, targets, selection[..n], sources, attempts, force);
      AfterEpisode(world, before, sources(selection[n]), attempts(selection[n]), force, t)
  }

  // -------------------------------------------------------------- the process

  class Converter {
    const world: World
    var fs: Fs
    var worker: Worker
    var converted: seq<Converted>
    var skipped: seq<Skipped>
    var failures: seq<int>
    var totalFrames: int
    var totalValid: int
    var totalBytes: int
    // Every state of the file system since the process started.
    ghost var trace: seq<State>

    ghost predicate Valid()
      reads this`fs, this`worker, this`trace
    {
      && Execution(world, trace)
      && trace[|trace| - 1] == State(fs, worker)
      && MakesFreshNames(world)
    }

    function Summary(): Tally
      reads this
    {
      Tally(converted, skipped, failures, totalFrames, totalValid, totalBytes)
    }

    constructor (world: World, fs: Fs)
      requires MakesFreshNames(world)
      ensures Valid() && this.world == world && this.fs == fs && worker == Idle
      ensures trace == [State(fs, Idle)] && Summary() == NOTHING_YET
    {
      this.world := world;
      this.fs := fs;
      worker := Idle;
      converted, skipped, failures := [], [], [];
      totalFrames, totalValid, totalBytes := 0, 0, 0;
      trace := [State(fs, Idle)];
    }

    method Take(step: Step)
      requires Valid() && Enabled(State(fs, worker), step)
      modifies this`fs, this`worker, this`trace
      ensures Valid()
      ensures State(fs, worker) == old(Apply(world, State(fs, worker), step))
      ensures trace == old(trace) + [State(fs, worker)]
    {
      var next := Apply(world, State(fs, worker), step);
      fs, worker := next.fs, next.worker;
      assert Next(world, trace[|trace| - 1], next);
      trace := trace + [next];
    }

    method Fail()
      requires Valid() && !worker.Idle? && worker.name in fs.temporaries
      modifies this`fs, this`worker, this`trace, this`failures
      ensures Valid() && worker == Idle
      ensures fs == Fs(old(fs.targets), Without(old(fs.temporaries), old(worker.name)))
      ensures failures == old(failures) + [old(worker.inputs.source.episode)]
      ensures old(trace) < trace
    {
      failures := failures + [worker.inputs.source.episode];
      Take(GiveUp);
    }

    // Remove one of the old target's files, if it is there.
    method Unlink(action: bool)
      requires Valid() && worker.Described? && worker.inputs.source.episode in fs.targets
      modifies this`fs, this`worker, this`trace
      ensures Valid() && worker == old(worker) && fs.temporaries == old(fs.temporaries)
      ensures var e := worker.inputs.source.episode;
              fs.targets == old(fs.targets)[e := if action then old(fs.targets)[e].(action := None)
                                                 else old(fs.targets)[e].(manifest := None)]
      ensures old(trace) <= trace
    {
      var e := worker.inputs.source.episode;
      if action {
        if fs.targets[e].action.Some? {
          Take(UnlinkAction);
        }
      } else {
        if fs.targets[e].manifest.Some? {
          Take(UnlinkManifest);
        }
      }
    }

    // `rmtree(target)`, which may raise before any of its removals.
    method Clear(actionFirst: bool, trouble: Trouble) returns (ok: bool)
      requires Valid() && worker.Described? && worker.inputs.source.episode in fs.targets
      modifies this`fs, this`worker, this`trace
      ensures Valid() && worker == old(worker) && fs.temporaries == old(fs.temporaries)
      ensures ok == !trouble.Clearing?
      ensures var e := worker.inputs.source.episode;
              fs.targets == if ok then Without(old(fs.targets), e)
                            else old(fs.targets)[e := Emptied(old(fs.targets)[e], actionFirst, trouble.removed)]
      ensures old(trace) <= trace
    {
      if trouble.Clearing? && trouble.removed == 0 {
        return false;
      }
      Unlink(actionFirst);
      if trouble.Clearing? && trouble.removed == 1 {
        return false;
      }
      Unlink(!actionFirst);
      if trouble.Clearing? {
        return false;
      }
      Take(RemoveTarget);
      return true;
    }

    // Write both files under the temporary name.
    method Build(inputs: Inputs, attempt: Attempt) returns (ok: bool)
      requires Valid() && worker == Idle
      modifies this`fs, this`worker, this`trace
      ensures Valid() && fs.targets == old(fs.targets)
      ensures !worker.Idle? && worker.inputs == inputs && worker.name == world.unused(old(fs.temporaries))
      ensures worker.name in fs.temporaries && Without(fs.temporaries, worker.name) == old(fs.temporaries)
      ensures ok <==> attempt.build.Success? && !attempt.trouble.SavingAction? && !attempt.trouble.SavingManifest?
      ensures ok ==> worker == Described(worker.name, inputs, attempt.build.value)
      ensures ok ==> fs.temporaries[worker.name] == PairOf(world, inputs, attempt.build.value)
      ensures old(trace) <= trace
    {
      assert world.unused(fs.temporaries) !in fs.temporaries;
      hide Valid, ManifestOf;
      Take(MakeTemporary(world.unused(fs.temporaries), inputs));
      if attempt.build.Failure? {
        return false;
      }
      Take(TearAction);
      if attempt.trouble.SavingAction? {
        return false;
      }
      Take(SaveAction(attempt.build.value));
      Take(TearManifest);
      if attempt.trouble.SavingManifest? {
        return false;
      }
      Take(SaveManifest);
      return true;
    }

    // Make way for the built directory and move it into place.
    method Commit(inputs: Inputs, attempt: Attempt) returns (ok: bool)
      requires Valid() && worker.Described? && worker.inputs == inputs && worker.name in fs.temporaries
      modifies this`fs, this`worker, this`trace
      ensures Valid() && (worker.Idle? || worker == old(worker))
      ensures var e, trouble := inputs.source.episode, attempt.trouble;
              var cleared := trouble.Clearing? && e in old(fs.targets);
              && (ok <==> !cleared && !trouble.Renaming?)
              && (ok <==> worker.Idle?)
              && fs.targets ==
                 if cleared then
                   old(fs.targets)[e := Emptied(old(fs.targets)[e], attempt.actionFirst, trouble.removed)]
                 else if trouble.Renaming? then Without(old(fs.targets), e)
                 else old(fs.targets)[e := old(fs.temporaries)[old(worker.name)]]
      ensures fs.temporaries == if ok then Without(old(fs.temporaries), old(worker.name)) else old(fs.temporaries)
      ensures old(trace) <= trace
    {
      var e := inputs.source.episode;
      if e in fs.targets {
        ok := Clear(attempt.actionFirst, attempt.trouble);
        if !ok {
          return;
        }
      } else {
        assert fs.targets == Without(fs.targets, e);
      }
      if attempt.trouble.Renaming? {
        return false;
      }
      ghost var cleared := fs.targets;
      Take(Rename);
      assert forall k :: k in fs.targets <==> k == e || k in old(fs.targets);
      return true;
    }

    method Convert(inputs: Inputs, attempt: Attempt)
      requires Valid() && worker == Idle
      modifies this
      ensures Valid() && worker == Idle && fs.temporaries == old(fs.temporaries)
      ensures (fs.targets, Summary()) == AfterConversion(world, old(fs.targets), inputs, attempt, old(Summary()))
      ensures old(trace) <= trace
    {
      hide Valid, PairOf, Count, Emptied, AfterRename;
      var built := Build(inputs, attempt);
      if !built {
        Fail();
        return;
      }
      var committed := Commit(inputs, attempt);
      if !committed {
        Fail();
        return;
      }
      CountConverted(inputs.source.episode, attempt.build.value, attempt.trouble);
    }

    // What happens after the rename: measure the pair, count it, report it.
    method CountConverted(e: int, artifact: Artifact, trouble: Trouble)
      requires e in fs.targets
      modifies this`converted, this`failures, this`totalFrames, this`totalValid, this`totalBytes
      ensures Summary() == AfterRename(world, fs.targets[e], e, artifact, trouble, old(Summary()))
    {
      if trouble.Measuring? {
        failures := failures + [e];
        return;
      }
      var frames, valid, bytes := |artifact.action|, Count(artifact.valid), BytesOf(world, fs.targets[e]);
      converted := converted + [Converted(e, frames, valid, bytes)];
      totalFrames, totalValid, totalBytes := totalFrames + frames, totalValid + valid, totalBytes + bytes;
      if trouble.Reporting? {
        failures := failures + [e];
      }
    }

    // The skip branch: done when the episode needs no conversion.
    method TrySkip(inputs: Inputs, skip: SkipTrouble) returns (done: bool)
      modifies this`skipped, this`totalFrames, this`totalValid, this`totalBytes
      ensures (Summary(), done) == AfterSkipTest(world, fs.targets, inputs, skip, old(Summary()))
    {
      var e := inputs.source.episode;
      if !Passes(world, fs.targets, inputs, e) {
        return false;
      }
      var found := fs.targets[e].manifest.value.manifest;
      if found.valid.Missing? {
        return false;
      }
      skipped := skipped + [Skipped(e, found.valid)];
      if !found.total.Number? {
        return false;
      }
      totalFrames := totalFrames + found.total.value;
      if !found.valid.Number? {
        return false;
      }
      totalValid := totalValid + found.valid.value;
      if skip.SizeRaises? {
        return false;
      }
      totalBytes := totalBytes + BytesOf(world, fs.targets[e]);
      return skip.Smooth?;
    }

    method Run(selection: seq<int>, sources: Sources, attempts: Attempts, force: bool)
      requires Valid() && worker == Idle && Summary() == NOTHING_YET
      modifies this
      ensures Valid() && worker == Idle && fs.temporaries == old(fs.temporaries)
      ensures (fs.targets, Summary()) == Through(world, old(fs.targets), selection, sources, attempts, force)
      ensures old(trace) <= trace
      ensures SoundStart(old(trace)[0]) ==> forall k :: 0 <= k < |trace| ==> Sound(world, trace[k].fs.targets)
    {
      for n := 0 to |selection|
        invariant Valid() && worker == Idle && fs.temporaries == old(fs.temporaries)
        invariant (fs.targets, Summary()) == Through(world, old(fs.targets), selection[..n], sources, attempts, force)
        invariant old(trace) <= trace
      {
        hide AfterSkipTest, AfterConversion, Valid;
        assert selection[..n + 1][..n] == selection[..n];
        var inputs, attempt := sources(selection[n]), attempts(selection[n]);
        var done := false;
        if !force {
          done := TrySkip(inputs, attempt.skip);
        }
        if !done {
          Convert(inputs, attempt);
        }
      }
      assert selection[..|selection|] == selection;
      if SoundStart(old(trace)[0]) {
        forall k | 0 <= k < |trace|
          ensures Sound(world, trace[k].fs.targets)
        {
          hide Sound;
          EveryStateSound(world, trace, k);
        }
      }
    }

    ghost predicate SoundStart(start: State) {
      start.worker.Idle? && Sound(world, start.fs.targets)
    }
  }
}
