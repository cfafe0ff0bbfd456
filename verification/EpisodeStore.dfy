// The converter's output tree, and the file-system steps a conversion takes:
// one directory per episode, built under a temporary name and renamed in place.
// A process may be killed between any two steps.
module EpisodeStore {
  import opened Outcome

  // ---------------------------------------------------------------- contents

  // What `action.npz` holds, numbers as their bit patterns.
  datatype Artifact = Artifact(action: seq<seq<int>>, valid: seq<bool>)

  // A file being written is torn until it is whole.
  datatype ActionFile = Whole(artifact: Artifact) | Torn

  datatype Source = Source(collection: string, episode: int, dataFile: string, dataSha: string, from: int, to: int)

  // Everything one conversion depends on.  The commit is recorded but never
  // compared.
  datatype Inputs = Inputs(source: Source, encoderSha: string, configSha: string, bundleSha: string, commit: string)

  // A count in a manifest, by what `int(...)` makes of it: this converter writes
  // numbers, but another writer may have left it out or put something else.
  datatype Field = Missing | Number(value: int) | NotANumber

  // A manifest's entries; those this converter always writes but another writer
  // may have left out are optional.
  datatype Manifest = Manifest(
    schema: Option<int>, source: Option<Source>, encoderSha: Option<string>, configSha: Option<string>,
    bundleSha: Option<string>, commit: Option<string>, total: Field, valid: Field, outputSha: Option<string>)

  // A manifest file: one object, or text that reading it raises on.
  datatype ManifestFile = Json(manifest: Manifest) | Unreadable

  datatype Dir = Dir(action: Option<ActionFile>, manifest: Option<ManifestFile>)

  // The digest, the file sizes and the choice of an unused temporary name.
  datatype World = World(
    hash: ActionFile -> string, actionSize: ActionFile -> nat, manifestSize: ManifestFile -> nat,
    unused: map<int, Dir> -> int)

  ghost predicate MakesFreshNames(world: World) {
    forall temporaries :: world.unused(temporaries) !in temporaries
  }

  const SCHEMA := 1

  function Count(valid: seq<bool>): nat {
    if valid == [] then 0 else (if valid[0] then 1 else 0) + Count(valid[1..])
  }

  function ManifestOf(world: World, inputs: Inputs, artifact: Artifact): Manifest {
    Manifest(Some(SCHEMA), Some(inputs.source), Some(inputs.encoderSha), Some(inputs.configSha), Some(inputs.bundleSha),
             Some(inputs.commit), Number(|artifact.action|), Number(Count(artifact.valid)),
             Some(world.hash(Whole(artifact))))
  }

  // The two files of one conversion.
  function PairOf(world: World, inputs: Inputs, artifact: Artifact): Dir {
    Dir(Some(Whole(artifact)), Some(Json(ManifestOf(world, inputs, artifact))))
  }

  ghost predicate IsPair(world: World, episode: int, dir: Dir) {
    exists inputs: Inputs, artifact: Artifact ::
      inputs.source.episode == episode && dir == PairOf(world, inputs, artifact)
  }

  // What is left of a pair once some of its files have been removed.
  ghost predicate LeftOf(dir: Dir, pair: Dir) {
    && (dir.action.None? || dir.action == pair.action)
    && (dir.manifest.None? || dir.manifest == pair.manifest)
  }

  ghost predicate IsRemnant(world: World, episode: int, dir: Dir) {
    exists pair :: IsPair(world, episode, pair) && LeftOf(dir, pair) && dir != pair
  }

  // ------------------------------------------------------------- the skip test

  // An old manifest stands for the inputs of this run.
  function Compatible(world: World, found: Manifest, inputs: Inputs, action: Option<ActionFile>): bool {
    && found.schema == Some(SCHEMA)
    && found.source == Some(inputs.source)
    && found.encoderSha == Some(inputs.encoderSha)
    && found.configSha == Some(inputs.configSha)
    && found.bundleSha == Some(inputs.bundleSha)
    && action.Some?
    && found.outputSha == Some(world.hash(action.value))
  }

  ghost predicate SameInputs(a: Inputs, b: Inputs) {
    a.source == b.source && a.encoderSha == b.encoderSha && a.configSha == b.configSha && a.bundleSha == b.bundleSha
  }

  predicate Passes(world: World, targets: map<int, Dir>, inputs: Inputs, episode: int) {
    && episode in targets
    && targets[episode].manifest.Some?
    && targets[episode].manifest.value.Json?
    && Compatible(world, targets[episode].manifest.value.manifest, inputs, targets[episode].action)
  }

  // ---------------------------------------------------------------- the steps

  datatype Fs = Fs(targets: map<int, Dir>, temporaries: map<int, Dir>)

  // What the process holds in memory while it converts one episode.
  datatype Worker =
    | Idle
    | Building(name: int, inputs: Inputs)
    | Saved(name: int, inputs: Inputs, artifact: Artifact)
    | Described(name: int, inputs: Inputs, artifact: Artifact)

  datatype State = State(fs: Fs, worker: Worker)

  datatype Step =
    | MakeTemporary(name: int, inputs: Inputs)
    | TearAction
    | SaveAction(artifact: Artifact)
    | TearManifest
    | SaveManifest
    | UnlinkAction
    | UnlinkManifest
    | RemoveTarget
    | Rename
    | GiveUp
    | Crash

  function Without(m: map<int, Dir>, key: int): (r: map<int, Dir>)
    ensures forall k :: k in r <==> k in m && k != key
    ensures forall k :: k in r ==> r[k] == m[k]
  {
    map k | k in m && k != key :: m[k]
  }

  // Put a directory under the worker's temporary name.
  function Put(s: State, dir: Dir, worker: Worker): State
    requires !s.worker.Idle?
  {
    State(Fs(s.fs.targets, s.fs.temporaries[s.worker.name := dir]), worker)
  }

  ghost predicate Enabled(s: State, step: Step) {
    match step
    case MakeTemporary(name, _) => s.worker.Idle? && name !in s.fs.temporaries
    case TearAction => s.worker.Building? && s.worker.name in s.fs.temporaries
    case SaveAction(_) => s.worker.Building? && s.worker.name in s.fs.temporaries
    case TearManifest => s.worker.Saved? && s.worker.name in s.fs.temporaries
    case SaveManifest => s.worker.Saved? && s.worker.name in s.fs.temporaries
    case UnlinkAction => s.worker.Described? && s.worker.inputs.source.episode in s.fs.targets
    case UnlinkManifest => s.worker.Described? && s.worker.inputs.source.episode in s.fs.targets
    case RemoveTarget =>
      && s.worker.Described? && s.worker.inputs.source.episode in s.fs.targets
      && s.fs.targets[s.worker.inputs.source.episode] == Dir(None, None)
    case Rename =>
      && s.worker.Described? && s.worker.inputs.source.episode !in s.fs.targets
      && s.worker.name in s.fs.temporaries
    case GiveUp => !s.worker.Idle?
    case Crash => true
  }

  function Apply(world: World, s: State, step: Step): State
    requires Enabled(s, step)
  {
    match step
    case MakeTemporary(name, inputs) =>
      State(Fs(s.fs.targets, s.fs.temporaries[name := Dir(None, None)]), Building(name, inputs))
    case TearAction => Put(s, s.fs.temporaries[s.worker.name].(action := Some(Torn)), s.worker)
    case SaveAction(artifact) =>
      Put(s, s.fs.temporaries[s.worker.name].(action := Some(Whole(artifact))),
          Saved(s.worker.name, s.worker.inputs, artifact))
    case TearManifest => Put(s, s.fs.temporaries[s.worker.name].(manifest := Some(Unreadable)), s.worker)
    case SaveManifest =>
      var written := Json(ManifestOf(world, s.worker.inputs, s.worker.artifact));
      Put(s, s.fs.temporaries[s.worker.name].(manifest := Some(written)),
          Described(s.worker.name, s.worker.inputs, s.worker.artifact))
    case UnlinkAction =>
      var e := s.worker.inputs.source.episode;
      s.(fs := s.fs.(targets := s.fs.targets[e := s.fs.targets[e].(action := None)]))
    case UnlinkManifest =>
      var e := s.worker.inputs.source.episode;
      s.(fs := s.fs.(targets := s.fs.targets[e := s.fs.targets[e].(manifest := None)]))
    case RemoveTarget => s.(fs := s.fs.(targets := Without(s.fs.targets, s.worker.inputs.source.episode)))
    case Rename =>
      var e := s.worker.inputs.source.episode;
      State(Fs(s.fs.targets[e := s.fs.temporaries[s.worker.name]], Without(s.fs.temporaries, s.worker.name)), Idle)
    case GiveUp => State(Fs(s.fs.targets, Without(s.fs.temporaries, s.worker.name)), Idle)
    case Crash => s.(worker := Idle)
  }

  ghost predicate Next(world: World, s: State, s': State) {
    exists step :: Enabled(s, step) && s' == Apply(world, s, step)
  }

  // A stretch of execution: any number of runs, any of them cut short.
  ghost predicate Execution(world: World, states: seq<State>) {
    states != [] && forall k :: 0 < k < |states| ==> Next(world, states[k - 1], states[k])
  }

  // ---------------------------------------------------------------- soundness

  // Every episode directory that exists is a complete pair of one conversion of
  // that episode, or a pair that was being removed.
  ghost predicate Sound(world: World, targets: map<int, Dir>) {
    forall episode :: episode in targets ==>
      IsPair(world, episode, targets[episode]) || IsRemnant(world, episode, targets[episode])
  }

  // What the worker has put under its temporary name so far.
  ghost predicate Holds(world: World, s: State) {
    match s.worker
    case Idle => true
    case Building(name, _) => name in s.fs.temporaries && s.fs.temporaries[name].manifest.None?
    case Saved(name, _, artifact) => name in s.fs.temporaries && s.fs.temporaries[name].action == Some(Whole(artifact))
    case Described(name, inputs, artifact) =>
      name in s.fs.temporaries && s.fs.temporaries[name] == PairOf(world, inputs, artifact)
  }

  lemma UnlinkLeaves(world: World, episode: int, before: Dir, after: Dir)
    requires IsPair(world, episode, before) || IsRemnant(world, episode, before)
    requires after == before.(action := None) || after == before.(manifest := None)
    ensures IsRemnant(world, episode, after)
  {
    if IsPair(world, episode, before) {
      assert LeftOf(after, before) && after != before;
    } else {
      var pair :| IsPair(world, episode, pair) && LeftOf(before, pair) && before != pair;
      assert LeftOf(after, pair);
    }
  }

  lemma StepKeepsSound(world: World, s: State, step: Step)
    requires Enabled(s, step) && Holds(world, s) && Sound(world, s.fs.targets)
    ensures Holds(world, Apply(world, s, step)) && Sound(world, Apply(world, s, step).fs.targets)
  {
    hide IsPair, IsRemnant, ManifestOf;
    match step
    case UnlinkAction =>
      var e := s.worker.inputs.source.episode;
      UnlinkLeaves(world, e, s.fs.targets[e], s.fs.targets[e].(action := None));
    case UnlinkManifest =>
      var e := s.worker.inputs.source.episode;
      UnlinkLeaves(world, e, s.fs.targets[e], s.fs.targets[e].(manifest := None));
    case Rename =>
      var e := s.worker.inputs.source.episode;
      PairIsPair(world, s.worker.inputs, s.worker.artifact);
    case _ =>
  }

  lemma PairIsPair(world: World, inputs: Inputs, artifact: Artifact)
    ensures IsPair(world, inputs.source.episode, PairOf(world, inputs, artifact))
  {
  }

  // However many runs there were and wherever each was cut short, no state in
  // between ever shows a torn or mixed episode directory.
  lemma {:induction false} EveryStateSound(world: World, states: seq<State>, k: nat)
    requires Execution(world, states) && k < |states|
    requires Holds(world, states[0]) && Sound(world, states[0].fs.targets)
    ensures Holds(world, states[k]) && Sound(world, states[k].fs.targets)
  {
    if k > 0 {
      EveryStateSound(world, states, k - 1);
      var step :| Enabled(states[k - 1], step) && states[k] == Apply(world, states[k - 1], step);
      StepKeepsSound(world, states[k - 1], step);
    }
  }

  lemma PairPasses(world: World, targets: map<int, Dir>, inputs: Inputs, episode: int, made: Inputs, artifact: Artifact)
    requires episode in targets && targets[episode] == PairOf(world, made, artifact)
    ensures Passes(world, targets, inputs, episode) <==> SameInputs(made, inputs)
  {
  }

  // A rerun skips exactly the complete pairs made from the same inputs: never a
  // remnant, never a pair whose source, encoder, configuration or code differs.
  lemma {:induction false} SkipsExactlyMatchingPairs(world: World, targets: map<int, Dir>, inputs: Inputs, episode: int)
    requires Sound(world, targets) && inputs.source.episode == episode
    ensures Passes(world, targets, inputs, episode)
       <==> && episode in targets
            && exists made: Inputs, artifact: Artifact ::
                 SameInputs(made, inputs) && targets[episode] == PairOf(world, made, artifact)
  {
    if episode in targets {
      var dir := targets[episode];
      if Passes(world, targets, inputs, episode) {
        var made: Inputs, artifact: Artifact :| made.source.episode == episode && dir == PairOf(world, made, artifact);
        assert SameInputs(made, inputs);
      }
      if made: Inputs, artifact: Artifact :| SameInputs(made, inputs) && dir == PairOf(world, made, artifact) {
        PairPasses(world, targets, inputs, episode, made, artifact);
      }
    }
  }
}
