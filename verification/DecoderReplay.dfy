// The closed loop that replays recorded tokens through a deterministic
// decoder: history windows, joint-order maps, per-tick observations and the
// four ways of feeding past actions back.
module DecoderReplay {
  import opened Outcome
  import opened ObservationLayout
  import opened Permutations

  type Window = seq<Row>

  // Any deterministic network; its output width is fixed when it is loaded.
  datatype Decoder = Decoder(run: Row -> Row, inputDim: nat)

  datatype Hypothesis = MujocoToIsaaclab | IsaaclabToMujoco | Identity | UnknownHypothesisName(name: string)

  datatype Source = RecordedTarget | RecordedAction | Measured | Zeros | Recurrence | UnknownSourceName(name: string)

  // The parts of the deployment semantics the replay reads; `frames` is the
  // history length (10 in the deployment) and the joint count is |defaults|.
  datatype Semantics = Semantics(
    frames: nat, isaaclabToMujoco: seq<int>, mujocoToIsaaclab: seq<int>,
    scale: Row, defaults: Row, layout: seq<Entry>)
  {
    ghost predicate Valid() {
      && frames > 0
      && |isaaclabToMujoco| == |mujocoToIsaaclab| == |scale| == |defaults|
      && (forall h :: 0 <= h < |scale| ==> scale[h] != 0.0)
      && Contiguous(layout)
    }

    function Joints(): nat { |defaults| }

    function Permutation(hypothesis: Hypothesis): Result<seq<int>, ReplayError> {
      match hypothesis
      case MujocoToIsaaclab => Success(mujocoToIsaaclab)
      case IsaaclabToMujoco => Success(isaaclabToMujoco)
      case Identity => Success(seq(|defaults|, h => h))
      case UnknownHypothesisName(name) => Failure(UnknownHypothesis(name))
    }
  }

  // The consumed-output order of one hypothesis and the history order derived
  // from it by sorting.
  datatype JointMap = JointMap(perm: seq<int>, order: seq<int>) {
    ghost predicate Valid(joints: nat) {
      |perm| == joints && IsPermutation(perm) && IsArgsort(perm, order)
    }
  }

  // ------------------------------------------------------------ joint orders

  function ZeroRow(width: nat): Row {
    seq(width, _ => 0.0)
  }

  ghost predicate AllWidth(rows: seq<Row>, width: nat) {
    forall t :: 0 <= t < |rows| ==> |rows[t]| == width
  }

  function ToTarget(action: real, default: real, scale: real): real {
    default + action * scale
  }

  function ToAction(target: real, default: real, scale: real): real
    requires scale != 0.0
  {
    (target - default) / scale
  }

  function TargetRow(sem: Semantics, m: JointMap, action: Row): (target: Row)
    requires sem.Valid() && m.Valid(sem.Joints()) && |action| == sem.Joints()
    ensures |target| == sem.Joints()
  {
    seq(sem.Joints(), h requires 0 <= h < sem.Joints() =>
      ToTarget(action[m.perm[h]], sem.defaults[h], sem.scale[h]))
  }

  function NormalisedRow(sem: Semantics, target: Row): (expected: Row)
    requires sem.Valid() && |target| == sem.Joints()
    ensures |expected| == sem.Joints()
  {
    seq(sem.Joints(), h requires 0 <= h < sem.Joints() =>
      ToAction(target[h], sem.defaults[h], sem.scale[h]))
  }

  // `action[perm] = expected` after its first k writes.
  function Scattered(perm: seq<int>, expected: Row, k: nat): (action: Row)
    requires k <= |perm| == |expected| && IsPermutation(perm)
    ensures |action| == |perm|
  {
    if k == 0 then ZeroRow(|perm|)
    else Scattered(perm, expected, k - 1)[perm[k - 1] := expected[k - 1]]
  }

  function ActionRow(sem: Semantics, m: JointMap, target: Row): (action: Row)
    requires sem.Valid() && m.Valid(sem.Joints()) && |target| == sem.Joints()
    ensures |action| == sem.Joints()
  {
    Scattered(m.perm, NormalisedRow(sem, target), sem.Joints())
  }

  method TargetToAction(sem: Semantics, m: JointMap, target: Row) returns (action: Row)
    requires sem.Valid() && m.Valid(sem.Joints()) && |target| == sem.Joints()
    ensures action == ActionRow(sem, m, target)
  {
    var n := sem.Joints();
    var expected := NormalisedRow(sem, target);
    var out := new real[n](_ => 0.0);
    assert out[..] == ZeroRow(n);
    for h := 0 to n
      invariant out[..] == Scattered(m.perm, expected, h)
    {
      out[m.perm[h]] := expected[h];
    }
    return out[..];
  }

  lemma {:induction false} ScatteredAt(perm: seq<int>, expected: Row, k: nat, h: nat)
    requires h < k <= |perm| == |expected| && IsPermutation(perm)
    ensures Scattered(perm, expected, k)[perm[h]] == expected[h]
    decreases k
  {
    if h < k - 1 {
      ScatteredAt(perm, expected, k - 1, h);
      assert perm[h] != perm[k - 1];
    }
  }

  // Output slot perm[h] carries joint h's normalised target.
  lemma {:induction false} ActionSlot(sem: Semantics, m: JointMap, target: Row, h: nat)
    requires sem.Valid() && m.Valid(sem.Joints()) && |target| == sem.Joints() && h < sem.Joints()
    ensures ActionRow(sem, m, target)[m.perm[h]] == ToAction(target[h], sem.defaults[h], sem.scale[h])
  {
    ScatteredAt(m.perm, NormalisedRow(sem, target), sem.Joints(), h);
  }

  lemma CancelScale(a: real, d: real, s: real)
    requires s != 0.0
    ensures ToAction(ToTarget(a, d, s), d, s) == a
    ensures ToTarget(ToAction(a, d, s), d, s) == a
  {
    assert (a * s) / s == a;
  }

  // The two maps are mutual inverses.
  lemma {:induction false} ActionOfTarget(sem: Semantics, m: JointMap, action: Row)
    requires sem.Valid() && m.Valid(sem.Joints()) && |action| == sem.Joints()
    ensures ActionRow(sem, m, TargetRow(sem, m, action)) == action
  {
    var target := TargetRow(sem, m, action);
    forall i | 0 <= i < |action|
      ensures ActionRow(sem, m, target)[i] == action[i]
    {
      PermutationIsOnto(m.perm, i);
      var h :| 0 <= h < |m.perm| && m.perm[h] == i;
      ActionSlot(sem, m, target, h);
      assert target[h] == ToTarget(action[i], sem.defaults[h], sem.scale[h]);
      CancelScale(action[i], sem.defaults[h], sem.scale[h]);
    }
  }

  lemma {:induction false} TargetOfAction(sem: Semantics, m: JointMap, target: Row)
    requires sem.Valid() && m.Valid(sem.Joints()) && |target| == sem.Joints()
    ensures TargetRow(sem, m, ActionRow(sem, m, target)) == target
  {
    forall h | 0 <= h < |target|
      ensures TargetRow(sem, m, ActionRow(sem, m, target))[h] == target[h]
    {
      ActionSlot(sem, m, target, h);
      CancelScale(target[h], sem.defaults[h], sem.scale[h]);
    }
  }

  // The action is zero exactly for the default pose.
  lemma {:induction false} ZeroActionIsDefault(sem: Semantics, m: JointMap, target: Row)
    requires sem.Valid() && m.Valid(sem.Joints()) && |target| == sem.Joints()
    ensures ActionRow(sem, m, target) == ZeroRow(sem.Joints()) <==> target == sem.defaults
  {
    TargetOfAction(sem, m, target);
    ActionOfTarget(sem, m, ZeroRow(sem.Joints()));
    assert forall h :: 0 <= h < sem.Joints() ==> ToTarget(0.0, sem.defaults[h], sem.scale[h]) == sem.defaults[h];
    assert TargetRow(sem, m, ZeroRow(sem.Joints())) == sem.defaults;
  }

  function PositionSlots(sem: Semantics, m: JointMap, q: Row): (slots: Row)
    requires sem.Valid() && m.Valid(sem.Joints()) && |q| == sem.Joints()
    ensures |slots| == sem.Joints()
  {
    seq(sem.Joints(), i requires 0 <= i < sem.Joints() => q[m.order[i]] - sem.defaults[m.order[i]])
  }

  function VelocitySlots(sem: Semantics, m: JointMap, dq: Row): (slots: Row)
    requires sem.Valid() && m.Valid(sem.Joints()) && |dq| == sem.Joints()
    ensures |slots| == sem.Joints()
  {
    seq(sem.Joints(), i requires 0 <= i < sem.Joints() => dq[m.order[i]])
  }

  // The state history and the action history agree on who sits in which slot.
  lemma {:induction false} HistorySlot(sem: Semantics, m: JointMap, q: Row, dq: Row, h: nat)
    requires sem.Valid() && m.Valid(sem.Joints()) && |q| == |dq| == sem.Joints() && h < sem.Joints()
    ensures PositionSlots(sem, m, q)[m.perm[h]] == q[h] - sem.defaults[h]
    ensures VelocitySlots(sem, m, dq)[m.perm[h]] == dq[h]
    ensures ActionRow(sem, m, q)[m.perm[h]] == PositionSlots(sem, m, q)[m.perm[h]] / sem.scale[h]
  {
    ArgsortInverts(m.perm, m.order);
    ActionSlot(sem, m, q, h);
  }

  // --------------------------------------------------------- history windows

  function ZeroWindow(frames: nat, width: nat): Window {
    seq(frames, _ => ZeroRow(width))
  }

  // The frames ending at tick t, oldest first, zeros before tick 0.
  function HistoryWindow(values: seq<Row>, t: nat, frames: nat, width: nat): (w: Window)
    requires t < |values|
    ensures |w| == frames
  {
    seq(frames, i requires 0 <= i < frames =>
      var tick := t + 1 - frames + i;
      if tick < 0 then ZeroRow(width) else values[tick])
  }

  function PreviousWindow(values: seq<Row>, t: nat, frames: nat, width: nat): (w: Window)
    requires t <= |values|
    ensures |w| == frames
  {
    if t == 0 then ZeroWindow(frames, width) else HistoryWindow(values, t - 1, frames, width)
  }

  method HistoryWindows(values: seq<Row>, frames: nat, width: nat) returns (windows: seq<Window>)
    requires frames > 0
    ensures |windows| == |values|
    ensures forall t :: 0 <= t < |values| ==> windows[t] == HistoryWindow(values, t, frames, width)
  {
    hide HistoryWindow, ZeroWindow;
    var out := new Window[|values|](_ => ZeroWindow(frames, width));
    for t := 0 to |values|
      invariant forall u :: 0 <= u < t ==> out[u] == HistoryWindow(values, u, frames, width)
      invariant forall u :: t <= u < |values| ==> out[u] == ZeroWindow(frames, width)
    {
      var first := if t - frames + 1 > 0 then t - frames + 1 else 0;
      var chunk := values[first..t + 1];
      WindowFilled(values, t, frames, width);
      out[t] := out[t][..frames - |chunk|] + chunk;
    }
    return out[..];
  }

  // A zero window with the last rows up to t written over its end.
  lemma WindowFilled(values: seq<Row>, t: nat, frames: nat, width: nat)
    requires t < |values| && frames > 0
    ensures |ZeroWindow(frames, width)| == frames
    ensures var chunk := values[if t - frames + 1 > 0 then t - frames + 1 else 0..t + 1];
            |chunk| <= frames
            && ZeroWindow(frames, width)[..frames - |chunk|] + chunk == HistoryWindow(values, t, frames, width)
  {
  }

  // One zero window, then every window but the last.
  method PreviousTickWindows(series: seq<Row>, frames: nat, width: nat) returns (windows: seq<Window>)
    requires frames > 0
    ensures |windows| == if series == [] then 1 else |series|
    ensures forall t :: 0 <= t < |series| ==> windows[t] == PreviousWindow(series, t, frames, width)
  {
    var current := HistoryWindows(series, frames, width);
    windows := [ZeroWindow(frames, width)] + (if current == [] then [] else current[..|current| - 1]);
  }

  function LastFrames(rows: seq<Row>, frames: nat): (w: Window)
    requires frames <= |rows|
    ensures |w| == frames
  {
    rows[|rows| - frames..]
  }

  // A zero-padded window is the tail of the series with zeros put in front.
  lemma PreviousWindowIsTail(values: seq<Row>, t: nat, frames: nat, width: nat)
    requires t <= |values|
    ensures PreviousWindow(values, t, frames, width) == LastFrames(ZeroWindow(frames, width) + values[..t], frames)
  {
    var padded := ZeroWindow(frames, width) + values[..t];
    forall i | 0 <= i < frames
      ensures PreviousWindow(values, t, frames, width)[i] == padded[t + i]
    {
    }
  }

  function Flatten(w: Window): Row {
    if w == [] then [] else w[0] + Flatten(w[1..])
  }

  // ----------------------------------------------------------------- inputs

  datatype Streams = Streams(tokens: seq<Row>, q: seq<Row>, dq: seq<Row>, gravity: seq<Row>, angvel: seq<Row>) {
    // Every series has a row for every tick, of the width it is used with.
    ghost predicate Valid(joints: nat) {
      && |q| >= |tokens| && |dq| >= |tokens| && |gravity| >= |tokens| && |angvel| >= |tokens|
      && AllWidth(q, joints) && AllWidth(dq, joints) && AllWidth(gravity, 3) && AllWidth(angvel, 3)
    }
  }

  // Where past actions come from, once the source name and its optional
  // arguments have been resolved.
  datatype Feedback = FromTargets(targets: seq<Row>) | FromMeasured | FromZeros | FromOwnActions(seed: Row) {
    ghost predicate Valid(joints: nat, ticks: nat) {
      match this
      case FromTargets(targets) => |targets| >= ticks && AllWidth(targets, joints)
      case FromOwnActions(seed) => |seed| == joints
      case _ => true
    }
  }

  function Resolve(source: Source, seed: Option<Row>, recorded: Option<seq<Row>>): Result<Feedback, ReplayError> {
    match source
    case RecordedTarget => if recorded.None? then Failure(NoRecordedTarget) else Success(FromTargets(recorded.value))
    case RecordedAction => if recorded.None? then Failure(NoRecordedTarget) else Success(FromTargets(recorded.value))
    case Measured => Success(FromMeasured)
    case Zeros => Success(FromZeros)
    case Recurrence => if seed.None? then Failure(NoSeed) else Success(FromOwnActions(seed.value))
    case UnknownSourceName(name) => Failure(UnknownSource(name))
  }

  // --------------------------------------------------------- reference replay

  // The run-time parameters that stay fixed over one replay.
  datatype Setup = Setup(decoder: Decoder, sem: Semantics, m: JointMap, streams: Streams, feedback: Feedback) {
    ghost predicate Valid() {
      && sem.Valid() && m.Valid(sem.Joints()) && streams.Valid(sem.Joints())
      && feedback.Valid(sem.Joints(), |streams.tokens|)
      && forall observation :: |decoder.run(observation)| == sem.Joints()
    }

    function Ticks(): nat { |streams.tokens| }
  }

  function ActionRows(sem: Semantics, m: JointMap, targets: seq<Row>): (actions: seq<Row>)
    requires sem.Valid() && m.Valid(sem.Joints()) && AllWidth(targets, sem.Joints())
    ensures |actions| == |targets|
  {
    seq(|targets|, t requires 0 <= t < |targets| => ActionRow(sem, m, targets[t]))
  }

  function TargetRows(sem: Semantics, m: JointMap, actions: seq<Row>): (targets: seq<Row>)
    requires sem.Valid() && m.Valid(sem.Joints()) && AllWidth(actions, sem.Joints())
    ensures |targets| == |actions| && AllWidth(targets, sem.Joints())
  {
    seq(|actions|, t requires 0 <= t < |actions| => TargetRow(sem, m, actions[t]))
  }

  // The action window at tick t when past actions come from outside the loop.
  function OutsideWindow(x: Setup, t: nat): (w: Window)
    requires x.Valid() && t <= x.Ticks() && !x.feedback.FromOwnActions?
    ensures |w| == x.sem.frames
  {
    var frames, n := x.sem.frames, x.sem.Joints();
    match x.feedback
    case FromTargets(targets) => PreviousWindow(ActionRows(x.sem, x.m, targets), t, frames, n)
    case FromMeasured => PreviousWindow(ActionRows(x.sem, x.m, x.streams.q), t, frames, n)
    case FromZeros => ZeroWindow(frames, n)
  }

  function SeedRows(x: Setup): (pad: seq<Row>)
    requires x.Valid() && x.feedback.FromOwnActions?
    ensures |pad| == x.sem.frames
  {
    seq(x.sem.frames, _ => ActionRow(x.sem, x.m, x.feedback.seed))
  }

  // The action window an observation carries at tick t, given the actions the
  // replay issued before it.
  function FeedbackWindow(x: Setup, t: nat, issued: seq<Row>): (w: Window)
    requires x.Valid() && t <= x.Ticks() && |issued| == t
    ensures |w| == x.sem.frames
  {
    if x.feedback.FromOwnActions? then LastFrames(SeedRows(x) + issued, x.sem.frames) else OutsideWindow(x, t)
  }

  function PositionSeries(x: Setup): (rows: seq<Row>)
    requires x.Valid()
    ensures |rows| == |x.streams.q|
  {
    seq(|x.streams.q|, t requires 0 <= t < |x.streams.q| => PositionSlots(x.sem, x.m, x.streams.q[t]))
  }

  function VelocitySeries(x: Setup): (rows: seq<Row>)
    requires x.Valid()
    ensures |rows| == |x.streams.dq|
  {
    seq(|x.streams.dq|, t requires 0 <= t < |x.streams.dq| => VelocitySlots(x.sem, x.m, x.streams.dq[t]))
  }

  function Blocks(token: Row, angvel: Window, q: Window, dq: Window, last: Window, gravity: Window): map<string, Row> {
    map[TOKEN_STATE := token,
        "his_base_angular_velocity_10frame_step1" := Flatten(angvel),
        "his_body_joint_positions_10frame_step1" := Flatten(q),
        "his_body_joint_velocities_10frame_step1" := Flatten(dq),
        "his_last_actions_10frame_step1" := Flatten(last),
        "his_gravity_dir_10frame_step1" := Flatten(gravity)]
  }

  function BlocksAt(x: Setup, t: nat, last: Window): map<string, Row>
    requires x.Valid() && t < x.Ticks()
  {
    var frames, n := x.sem.frames, x.sem.Joints();
    Blocks(x.streams.tokens[t],
           HistoryWindow(x.streams.angvel, t, frames, 3),
           HistoryWindow(PositionSeries(x), t, frames, n),
           HistoryWindow(VelocitySeries(x), t, frames, n),
           last,
           HistoryWindow(x.streams.gravity, t, frames, 3))
  }

  // One decoder call; a width mismatch is an error.
  function Decode(decoder: Decoder, observation: Row): Result<Row, ReplayError> {
    if |observation| != decoder.inputDim then Failure(WrongObservationWidth(|observation|, decoder.inputDim))
    else Success(decoder.run(observation))
  }

  function Tick(x: Setup, t: nat, last: Window): (r: Result<Row, ReplayError>)
    requires x.Valid() && t < x.Ticks()
    ensures r.Success? ==> |r.value| == x.sem.Joints()
  {
    var observation :- Assemble(x.sem.layout, BlocksAt(x, t, last));
    Decode(x.decoder, observation)
  }

  // A tick decided from its index and the actions issued before it.
  type Step = (nat, seq<Row>) --> Result<Row, ReplayError>

  ghost predicate DecidesBefore(step: Step, width: nat, t: nat) {
    forall u: nat, issued: seq<Row> :: u < t && |issued| == u ==>
      && step.requires(u, issued)
      && (step(u, issued).Success? ==> |step(u, issued).value| == width)
  }

  // The actions of the first t ticks, or the first error.
  ghost function Iterate(step: Step, width: nat, t: nat): (r: Result<seq<Row>, ReplayError>)
    requires DecidesBefore(step, width, t)
    ensures r.Success? ==> |r.value| == t && AllWidth(r.value, width)
  {
    if t == 0 then Success([])
    else
      var issued :- Iterate(step, width, t - 1);
      var action :- step(t - 1, issued);
      Success(issued + [action])
  }

  lemma {:induction false} IterateExtends(step: Step, width: nat, t: nat, u: nat)
    requires t <= u && DecidesBefore(step, width, u)
    ensures Iterate(step, width, t).Failure? ==> Iterate(step, width, u) == Iterate(step, width, t)
    ensures Iterate(step, width, u).Success? ==>
              Iterate(step, width, t).Success? && Iterate(step, width, t).value == Iterate(step, width, u).value[..t]
    decreases u
  {
    if t < u {
      IterateExtends(step, width, t, u - 1);
    }
  }

  lemma {:induction false} IterateAgrees(a: Step, b: Step, width: nat, t: nat)
    requires DecidesBefore(a, width, t) && DecidesBefore(b, width, t)
    requires forall u: nat, issued: seq<Row> :: u < t && |issued| == u && AllWidth(issued, width) ==>
               a(u, issued) == b(u, issued)
    ensures Iterate(a, width, t) == Iterate(b, width, t)
    decreases t
  {
    if t > 0 {
      IterateAgrees(a, b, width, t - 1);
    }
  }

  // The replay's own step: the decoder sees the window its feedback gives.
  ghost function StepOf(x: Setup): (step: Step)
    requires x.Valid()
    ensures DecidesBefore(step, x.sem.Joints(), x.Ticks())
  {
    (t: nat, issued: seq<Row>) requires t < x.Ticks() && |issued| == t => Tick(x, t, FeedbackWindow(x, t, issued))
  }

  ghost function Run(x: Setup, t: nat): (r: Result<seq<Row>, ReplayError>)
    requires x.Valid() && t <= x.Ticks()
    ensures r.Success? ==> |r.value| == t && AllWidth(r.value, x.sem.Joints())
  {
    Iterate(StepOf(x), x.sem.Joints(), t)
  }

  datatype ReplayResult = ReplayResult(qTarget: seq<Row>, action: seq<Row>, tokens: seq<Row>)

  ghost function Replayed(x: Setup): Result<ReplayResult, ReplayError>
    requires x.Valid()
  {
    var actions :- Run(x, x.Ticks());
    Success(ReplayResult(TargetRows(x.sem, x.m, actions), actions, x.streams.tokens))
  }

  // -------------------------------------------------------- the tick loop

  method ActionsOfTargets(sem: Semantics, m: JointMap, targets: seq<Row>) returns (actions: seq<Row>)
    requires sem.Valid() && m.Valid(sem.Joints()) && AllWidth(targets, sem.Joints())
    ensures actions == ActionRows(sem, m, targets)
  {
    actions := [];
    for t := 0 to |targets|
      invariant actions == ActionRows(sem, m, targets)[..t]
    {
      var action := TargetToAction(sem, m, targets[t]);
      actions := actions + [action];
    }
  }

  // One pass of the loop body: assemble, check the width, call the network.
  method TickAction(decoder: Decoder, layout: seq<Entry>, blocks: map<string, Row>)
    returns (r: Result<Row, ReplayError>)
    requires Contiguous(layout)
    ensures r == match Assemble(layout, blocks) {
                   case Success(observation) => Decode(decoder, observation)
                   case Failure(error) => Failure(error)
                 }
  {
    var observation :- BuildObservation(blocks, layout);
    return Decode(decoder, observation);
  }

  // The windows known before the loop starts; the recurrence has none.
  method OutsideWindows(ghost x: Setup, sem: Semantics, m: JointMap, q: seq<Row>, feedback: Feedback)
    returns (windows: seq<Window>)
    requires x.Valid() && x.sem == sem && x.m == m && x.streams.q == q && x.feedback == feedback
    ensures !feedback.FromOwnActions? ==>
              && |windows| >= x.Ticks()
              && forall t :: 0 <= t < x.Ticks() ==> windows[t] == OutsideWindow(x, t)
  {
    var frames, n := sem.frames, sem.Joints();
    match feedback
    case FromTargets(targets) =>
      var actions := ActionsOfTargets(sem, m, targets);
      windows := PreviousTickWindows(actions, frames, n);
    case FromMeasured =>
      var actions := ActionsOfTargets(sem, m, q);
      windows := PreviousTickWindows(actions, frames, n);
    case FromZeros =>
      windows := seq(|q|, _ => ZeroWindow(frames, n));
    case FromOwnActions(_) =>
      windows := [];
  }

  // What is known before the first tick: the state windows, and the action windows
  // unless the replay feeds back its own actions.
  datatype Windows = Windows(angvel: seq<Window>, q: seq<Window>, dq: seq<Window>, last: seq<Window>,
                             gravity: seq<Window>)

  ghost predicate Precomputed(x: Setup, w: Windows)
    requires x.Valid()
  {
    var frames, n := x.sem.frames, x.sem.Joints();
    && |w.angvel| >= x.Ticks() && |w.q| >= x.Ticks() && |w.dq| >= x.Ticks() && |w.gravity| >= x.Ticks()
    && (forall t :: 0 <= t < x.Ticks() ==> w.angvel[t] == HistoryWindow(x.streams.angvel, t, frames, 3))
    && (forall t :: 0 <= t < x.Ticks() ==> w.q[t] == HistoryWindow(PositionSeries(x), t, frames, n))
    && (forall t :: 0 <= t < x.Ticks() ==> w.dq[t] == HistoryWindow(VelocitySeries(x), t, frames, n))
    && (forall t :: 0 <= t < x.Ticks() ==> w.gravity[t] == HistoryWindow(x.streams.gravity, t, frames, 3))
    && (!x.feedback.FromOwnActions? ==>
          |w.last| >= x.Ticks() && forall t :: 0 <= t < x.Ticks() ==> w.last[t] == OutsideWindow(x, t))
  }

  method Precompute(x: Setup) returns (w: Windows)
    requires x.Valid()
    ensures Precomputed(x, w)
  {
    hide HistoryWindow, PositionSeries, VelocitySeries, OutsideWindow;
    var frames, n := x.sem.frames, x.sem.Joints();
    var qWindows := HistoryWindows(PositionSeries(x), frames, n);
    var dqWindows := HistoryWindows(VelocitySeries(x), frames, n);
    var gravityWindows := HistoryWindows(x.streams.gravity, frames, 3);
    var angvelWindows := HistoryWindows(x.streams.angvel, frames, 3);
    var lastWindows := OutsideWindows(x, x.sem, x.m, x.streams.q, x.feedback);
    return Windows(angvelWindows, qWindows, dqWindows, lastWindows, gravityWindows);
  }

  // The buffer before the first tick: copies of the seed's action.
  method SeedBuffer(x: Setup) returns (buffer: Window)
    requires x.Valid()
    ensures x.feedback.FromOwnActions? ==> buffer == FeedbackWindow(x, 0, [])
  {
    buffer := [];
    if x.feedback.FromOwnActions? {
      var action := TargetToAction(x.sem, x.m, x.feedback.seed);
      buffer := seq(x.sem.frames, _ => action);
      assert buffer == SeedRows(x) == LastFrames(SeedRows(x) + [], x.sem.frames);
    }
  }

  lemma WindowAt(x: Setup, w: Windows, t: nat, issued: seq<Row>)
    requires x.Valid() && Precomputed(x, w) && t < x.Ticks() && |issued| == t && !x.feedback.FromOwnActions?
    ensures t < |w.last| && w.last[t] == FeedbackWindow(x, t, issued)
  {
  }

  lemma PreparedBlocks(x: Setup, w: Windows, t: nat, last: Window)
    requires x.Valid() && Precomputed(x, w) && t < x.Ticks()
    ensures t < |w.angvel| && t < |w.q| && t < |w.dq| && t < |w.gravity|
    ensures Blocks(x.streams.tokens[t], w.angvel[t], w.q[t], w.dq[t], last, w.gravity[t]) == BlocksAt(x, t, last)
  {
    hide HistoryWindow, PositionSeries, VelocitySeries, Blocks;
  }

  // Rolling the buffer over an issued action gives the next tick's window.
  lemma BufferRolls(x: Setup, t: nat, issued: seq<Row>, action: Row, buffer: Window)
    requires x.Valid() && x.feedback.FromOwnActions? && t < x.Ticks() && |issued| == t
    requires buffer == FeedbackWindow(x, t, issued)
    ensures (buffer[1..] + [buffer[0]])[x.sem.frames - 1 := action] == FeedbackWindow(x, t + 1, issued + [action])
  {
    RollKeepsTail(SeedRows(x), issued, action, x.sem.frames, buffer);
  }

  lemma TickIs(x: Setup, t: nat, last: Window)
    requires x.Valid() && t < x.Ticks()
    ensures Tick(x, t, last) == match Assemble(x.sem.layout, BlocksAt(x, t, last)) {
                                  case Success(observation) => Decode(x.decoder, observation)
                                  case Failure(error) => Failure(error)
                                }
  {
    hide Assemble, BlocksAt, Decode;
  }

  lemma RunStarts(x: Setup)
    requires x.Valid()
    ensures Run(x, 0) == Success([])
  {
  }

  // The loop of the script: state windows computed up front, a rolled buffer
  // for the recurrence, one decoder call a tick.
  method TickLoop(x: Setup) returns (r: Result<seq<Row>, ReplayError>)
    requires x.Valid()
    ensures r == Run(x, x.Ticks())
  {
    var w := Precompute(x);
    var own := x.feedback.FromOwnActions?;
    var buffer := SeedBuffer(x);
    var actions: seq<Row> := [];
    RunStarts(x);
    assert x.sem.frames > 0 && Contiguous(x.sem.layout);
    hide Run, Precomputed, FeedbackWindow, Blocks, BlocksAt, Tick, Assemble, Decode;
    hide Setup.Valid, Semantics.Valid, Contiguous, AllWidth;
    for t := 0 to x.Ticks()
      invariant Run(x, t) == Success(actions)
      invariant own ==> buffer == FeedbackWindow(x, t, actions)
    {
      PreparedBlocks(x, w, t, FeedbackWindow(x, t, actions));
      TickIs(x, t, FeedbackWindow(x, t, actions));
      if !own {
        WindowAt(x, w, t, actions);
      }
      var last := if own then buffer else w.last[t];
      var ticked := TickAction(x.decoder, x.sem.layout,
                               Blocks(x.streams.tokens[t], w.angvel[t], w.q[t], w.dq[t], last, w.gravity[t]));
      RunStep(x, t, actions);
      if ticked.Failure? {
        RunFails(x, t + 1);
        return Failure(ticked.error);
      }
      var action := ticked.value;
      if own {
        BufferRolls(x, t, actions, action, buffer);
        buffer := buffer[1..] + [buffer[0]];
        buffer := buffer[x.sem.frames - 1 := action];
      }
      actions := actions + [action];
    }
    return Success(actions);
  }

  method ReplayStream(decoder: Decoder, sem: Semantics, streams: Streams, hypothesis: Hypothesis, source: Source,
                      seed: Option<Row>, recorded: Option<seq<Row>>, argsort: seq<int> -> seq<int>)
    returns (r: Result<ReplayResult, ReplayError>)
    requires sem.Valid() && streams.Valid(sem.Joints())
    requires forall observation :: |decoder.run(observation)| == sem.Joints()
    requires forall keys :: IsArgsort(keys, argsort(keys))
    requires GuardPasses(sem.isaaclabToMujoco, sem.mujocoToIsaaclab)
    requires hypothesis.IsaaclabToMujoco? ==> IsPermutation(sem.isaaclabToMujoco)
    requires seed.Some? ==> |seed.value| == sem.Joints()
    requires recorded.Some? ==> |recorded.value| >= |streams.tokens| && AllWidth(recorded.value, sem.Joints())
    ensures if hypothesis.UnknownHypothesisName? then r == Failure(UnknownHypothesis(hypothesis.name))
            else if source.UnknownSourceName? then r == Failure(UnknownSource(source.name))
            else if (source.RecordedTarget? || source.RecordedAction?) && recorded.None? then
              r == Failure(NoRecordedTarget)
            else if source.Recurrence? && seed.None? then r == Failure(NoSeed)
            else exists x: Setup :: x.Valid() && x.decoder == decoder && x.sem == sem && x.streams == streams
                                    && x.m.order == argsort(x.m.perm) && OrderChosen(sem, hypothesis, x.m.perm)
                                    && FeedbackChosen(source, seed, recorded, x.feedback) && r == Replayed(x)
  {
    GuardGivesPermutation(sem, hypothesis);
    NamesChoose(sem, hypothesis, source, seed, recorded);
    hide Semantics.Valid, OrderChosen, FeedbackChosen, Semantics.Permutation, Resolve, Run, Contiguous;
    var perm :- sem.Permutation(hypothesis);
    var feedback :- Resolve(source, seed, recorded);
    var x := Setup(decoder, sem, JointMap(perm, argsort(perm)), streams, feedback);
    var actions :- TickLoop(x);
    return Success(ReplayResult(TargetRows(sem, x.m, actions), actions, streams.tokens));
  }

  // The joint order a hypothesis stands for.
  ghost predicate OrderChosen(sem: Semantics, hypothesis: Hypothesis, perm: seq<int>) {
    match hypothesis
    case MujocoToIsaaclab => perm == sem.mujocoToIsaaclab
    case IsaaclabToMujoco => perm == sem.isaaclabToMujoco
    case Identity => |perm| == sem.Joints() && forall h :: 0 <= h < |perm| ==> perm[h] == h
    case UnknownHypothesisName(_) => false
  }

  // What a source's past actions are taken from.
  ghost predicate FeedbackChosen(source: Source, seed: Option<Row>, recorded: Option<seq<Row>>, feedback: Feedback) {
    match feedback
    case FromTargets(targets) => (source.RecordedTarget? || source.RecordedAction?) && recorded == Some(targets)
    case FromMeasured => source.Measured?
    case FromZeros => source.Zeros?
    case FromOwnActions(first) => source.Recurrence? && seed == Some(first)
  }

  // The order and the feedback taken are the ones chosen.
  lemma NamesChoose(sem: Semantics, hypothesis: Hypothesis, source: Source, seed: Option<Row>,
                    recorded: Option<seq<Row>>)
    ensures match sem.Permutation(hypothesis)
            case Success(perm) => !hypothesis.UnknownHypothesisName? && OrderChosen(sem, hypothesis, perm)
            case Failure(error) => hypothesis.UnknownHypothesisName? && error == UnknownHypothesis(hypothesis.name)
    ensures match Resolve(source, seed, recorded)
            case Success(feedback) => FeedbackChosen(source, seed, recorded, feedback)
            case Failure(error) =>
              || (source.UnknownSourceName? && error == UnknownSource(source.name))
              || ((source.RecordedTarget? || source.RecordedAction?) && recorded.None? && error == NoRecordedTarget)
              || (source.Recurrence? && seed.None? && error == NoSeed)
  {
  }

  // The parser's check vouches for two of the three hypotheses.
  lemma {:induction false} GuardGivesPermutation(sem: Semantics, hypothesis: Hypothesis)
    requires sem.Valid() && GuardPasses(sem.isaaclabToMujoco, sem.mujocoToIsaaclab)
    requires hypothesis.IsaaclabToMujoco? ==> IsPermutation(sem.isaaclabToMujoco)
    ensures sem.Permutation(hypothesis).Success? ==> IsPermutation(sem.Permutation(hypothesis).value)
  {
    GuardCertifiesInverse(sem.isaaclabToMujoco, sem.mujocoToIsaaclab);
  }

  lemma RollKeepsTail(pad: seq<Row>, issued: seq<Row>, action: Row, frames: nat, buffer: Window)
    requires 0 < frames == |pad| && buffer == LastFrames(pad + issued, frames)
    ensures (buffer[1..] + [buffer[0]])[frames - 1 := action] == LastFrames(pad + (issued + [action]), frames)
  {
  }

  lemma RunStep(x: Setup, t: nat, issued: seq<Row>)
    requires x.Valid() && t < x.Ticks() && Run(x, t) == Success(issued)
    ensures Run(x, t + 1) == match Tick(x, t, FeedbackWindow(x, t, issued)) {
                               case Success(action) => Success(issued + [action])
                               case Failure(error) => Failure(error)
                             }
  {
  }

  lemma {:induction false} RunFails(x: Setup, t: nat)
    requires x.Valid() && t <= x.Ticks() && Run(x, t).Failure?
    ensures Run(x, x.Ticks()) == Run(x, t)
  {
    IterateExtends(StepOf(x), x.sem.Joints(), t, x.Ticks());
  }
}
