// Run-level results about the decoder replay: its closed-loop fixed point,
// causality, and bounded memory.
module ReplayTheorems {
  import opened Outcome
  import opened ObservationLayout
  import opened DecoderReplay

  // ------------------------------------------------------ the two feedbacks

  // The replay that feeds its own actions back, seeded at a pose.
  function OwnLoop(x: Setup, seed: Row): Setup {
    x.(feedback := FromOwnActions(seed))
  }

  // The replay that is fed a recording of joint targets.
  function FedLoop(x: Setup, targets: seq<Row>): Setup {
    x.(feedback := FromTargets(targets))
  }

  // Feeding back recorded targets whose normalised actions are the issued ones
  // shows the decoder the same window as the recurrence does, at tick t exactly
  // when the seed is the default pose or the seed has left the window.
  lemma {:induction false} WindowsMeet(x: Setup, seed: Row, targets: seq<Row>, t: nat, issued: seq<Row>)
    requires OwnLoop(x, seed).Valid() && FedLoop(x, targets).Valid()
    requires t <= x.Ticks() && |issued| == t
    requires forall u :: 0 <= u < t ==> ActionRow(x.sem, x.m, targets[u]) == issued[u]
    ensures FeedbackWindow(FedLoop(x, targets), t, issued) == FeedbackWindow(OwnLoop(x, seed), t, issued)
            <==> seed == x.sem.defaults || t >= x.sem.frames
  {
    var frames, n := x.sem.frames, x.sem.Joints();
    var fed := ActionRows(x.sem, x.m, targets);
    assert fed[..t] == issued;
    PreviousWindowIsTail(fed, t, frames, n);
    ZeroActionIsDefault(x.sem, x.m, seed);
    var padA, padB := ZeroWindow(frames, n), SeedRows(OwnLoop(x, seed));
    PaddingShows(padA, padB, issued, frames);
    if padA == padB {
      assert padA[0] == padB[0];
    }
  }

  lemma PaddingShows(a: seq<Row>, b: seq<Row>, issued: seq<Row>, frames: nat)
    requires 0 < frames == |a| == |b|
    requires forall i, j :: 0 <= i < frames && 0 <= j < frames ==> a[i] == a[j] && b[i] == b[j]
    ensures LastFrames(a + issued, frames) == LastFrames(b + issued, frames) <==> a == b || |issued| >= frames
  {
    var wa, wb := LastFrames(a + issued, frames), LastFrames(b + issued, frames);
    if |issued| >= frames {
      assert wa == wb;
    } else {
      assert wa[0] == a[|issued|] && wb[0] == b[|issued|];
      if a[0] == b[0] {
        assert a == b;
      }
    }
  }

  // ---------------------------------------------------------- fixed point

  ghost predicate Reproduces(x: Setup, targets: seq<Row>)
    requires x.Valid()
  {
    Run(x, x.Ticks()).Success? && TargetRows(x.sem, x.m, Run(x, x.Ticks()).value) == targets
  }

  // A run's earlier actions are a prefix of its later ones.
  lemma {:induction false} RunExtends(x: Setup, t: nat, u: nat)
    requires x.Valid() && t <= u <= x.Ticks() && Run(x, u).Success?
    ensures Run(x, t).Success? && Run(x, t).value == Run(x, u).value[..t]
  {
    IterateExtends(StepOf(x), x.sem.Joints(), t, u);
  }

  lemma TickSeesOnlyTheWindow(a: Setup, b: Setup, t: nat, last: Window)
    requires a.Valid() && b.Valid() && t < a.Ticks()
    requires b == a.(feedback := b.feedback)
    ensures Tick(a, t, last) == Tick(b, t, last)
  {
    assert PositionSeries(a) == PositionSeries(b);
    assert VelocitySeries(a) == VelocitySeries(b);
  }

  // While the recording holds the targets of the actions issued so far, the
  // two loops take the same next step.
  lemma StepTogether(x: Setup, targets: seq<Row>, t: nat, issued: seq<Row>)
    requires FedLoop(x, targets).Valid() && OwnLoop(x, x.sem.defaults).Valid() && t < x.Ticks()
    requires Run(FedLoop(x, targets), t) == Run(OwnLoop(x, x.sem.defaults), t) == Success(issued)
    requires forall u :: 0 <= u < t ==> targets[u] == TargetRow(x.sem, x.m, issued[u])
    ensures Run(FedLoop(x, targets), t + 1) == Run(OwnLoop(x, x.sem.defaults), t + 1)
  {
    var own, fed := OwnLoop(x, x.sem.defaults), FedLoop(x, targets);
    forall u | 0 <= u < t
      ensures ActionRow(x.sem, x.m, targets[u]) == issued[u]
    {
      ActionOfTarget(x.sem, x.m, issued[u]);
    }
    WindowsMeet(x, x.sem.defaults, targets, t, issued);
    TickSeesOnlyTheWindow(own, fed, t, FeedbackWindow(own, t, issued));
    RunStep(own, t, issued);
    RunStep(fed, t, issued);
  }

  // Either loop issues these actions, in full.
  ghost predicate OneIssues(x: Setup, targets: seq<Row>, actions: seq<Row>)
    requires FedLoop(x, targets).Valid() && OwnLoop(x, x.sem.defaults).Valid()
  {
    Run(FedLoop(x, targets), x.Ticks()) == Success(actions)
    || Run(OwnLoop(x, x.sem.defaults), x.Ticks()) == Success(actions)
  }

  lemma OneIssuesPrefix(x: Setup, targets: seq<Row>, actions: seq<Row>, t: nat)
    requires FedLoop(x, targets).Valid() && OwnLoop(x, x.sem.defaults).Valid() && t <= x.Ticks() == |actions|
    requires OneIssues(x, targets, actions)
    ensures Run(FedLoop(x, targets), t) == Success(actions[..t])
            || Run(OwnLoop(x, x.sem.defaults), t) == Success(actions[..t])
  {
    if Run(FedLoop(x, targets), x.Ticks()) == Success(actions) {
      RunExtends(FedLoop(x, targets), t, x.Ticks());
    } else {
      RunExtends(OwnLoop(x, x.sem.defaults), t, x.Ticks());
    }
  }

  // If either loop issues these actions, both do, tick for tick.
  lemma {:induction false} LoopsRunInStep(x: Setup, targets: seq<Row>, actions: seq<Row>, t: nat)
    requires FedLoop(x, targets).Valid() && OwnLoop(x, x.sem.defaults).Valid() && t <= x.Ticks() == |actions|
    requires OneIssues(x, targets, actions)
    requires AllWidth(actions, x.sem.Joints()) && targets == TargetRows(x.sem, x.m, actions)
    ensures Run(FedLoop(x, targets), t) == Run(OwnLoop(x, x.sem.defaults), t) == Success(actions[..t])
    decreases t
  {
    hide Run, OneIssues, TargetRow;
    if t > 0 {
      LoopsRunInStep(x, targets, actions, t - 1);
      var issued := actions[..t - 1];
      assert forall u :: 0 <= u < t - 1 ==> targets[u] == TargetRow(x.sem, x.m, issued[u]);
      StepTogether(x, targets, t - 1, issued);
      OneIssuesPrefix(x, targets, actions, t);
    } else {
      RunStarts(FedLoop(x, targets));
      RunStarts(OwnLoop(x, x.sem.defaults));
    }
  }

  // A recording is reproduced by the replay it feeds exactly when it is what
  // the recurrence seeded at the default pose produces; the two replays then
  // issue the same actions at every tick.  So the recurrence's output is a
  // fixed point of the recorded replay, and the only one.
  lemma {:induction false} UniqueFixedPoint(x: Setup, targets: seq<Row>)
    requires FedLoop(x, targets).Valid()
    ensures Reproduces(FedLoop(x, targets), targets) <==> Reproduces(OwnLoop(x, x.sem.defaults), targets)
    ensures Reproduces(FedLoop(x, targets), targets) ==>
              Replayed(FedLoop(x, targets)) == Replayed(OwnLoop(x, x.sem.defaults))
  {
    var own, fed := OwnLoop(x, x.sem.defaults), FedLoop(x, targets);
    if Reproduces(fed, targets) {
      LoopsRunInStep(x, targets, Run(fed, x.Ticks()).value, x.Ticks());
    } else if Reproduces(own, targets) {
      LoopsRunInStep(x, targets, Run(own, x.Ticks()).value, x.Ticks());
    }
  }

  // ------------------------------------------------------------- causality

  ghost predicate SameModel(a: Setup, b: Setup) {
    a.decoder == b.decoder && a.sem == b.sem && a.m == b.m
  }

  ghost predicate SameRows(va: seq<Row>, vb: seq<Row>, t: int)
    requires t <= |va| && t <= |vb|
  {
    forall u :: 0 <= u < t ==> va[u] == vb[u]
  }

  // The inputs of the ticks before t: streams up to t - 1, recorded targets
  // only up to t - 2, because a tick sees the action of the tick before it.
  ghost predicate AgreeBefore(a: Setup, b: Setup, t: nat)
    requires a.Valid() && b.Valid() && t <= a.Ticks() && t <= b.Ticks()
  {
    && SameModel(a, b)
    && SameRows(a.streams.tokens, b.streams.tokens, t)
    && SameRows(a.streams.q, b.streams.q, t)
    && SameRows(a.streams.dq, b.streams.dq, t)
    && SameRows(a.streams.gravity, b.streams.gravity, t)
    && SameRows(a.streams.angvel, b.streams.angvel, t)
    && match (a.feedback, b.feedback) {
         case (FromTargets(ta), FromTargets(tb)) => SameRows(ta, tb, t - 1)
         case (FromOwnActions(sa), FromOwnActions(sb)) => sa == sb
         case (fa, fb) => fa == fb
       }
  }

  lemma WindowsAgree(va: seq<Row>, vb: seq<Row>, t: nat, frames: nat, width: nat)
    requires t < |va| && t < |vb|
    requires SameRows(va, vb, t + 1)
    ensures HistoryWindow(va, t, frames, width) == HistoryWindow(vb, t, frames, width)
  {
  }

  lemma BlocksAgree(a: Setup, b: Setup, t: nat, last: Window)
    requires a.Valid() && b.Valid() && t < a.Ticks() && t < b.Ticks() && AgreeBefore(a, b, t + 1)
    ensures BlocksAt(a, t, last) == BlocksAt(b, t, last)
  {
    var frames, n := a.sem.frames, a.sem.Joints();
    WindowsAgree(a.streams.angvel, b.streams.angvel, t, frames, 3);
    WindowsAgree(a.streams.gravity, b.streams.gravity, t, frames, 3);
    WindowsAgree(PositionSeries(a), PositionSeries(b), t, frames, n);
    WindowsAgree(VelocitySeries(a), VelocitySeries(b), t, frames, n);
  }

  lemma FeedbackAgrees(a: Setup, b: Setup, t: nat, issued: seq<Row>)
    requires a.Valid() && b.Valid() && t < a.Ticks() && t < b.Ticks() && AgreeBefore(a, b, t + 1)
    requires |issued| == t
    ensures FeedbackWindow(a, t, issued) == FeedbackWindow(b, t, issued)
  {
    var frames, n := a.sem.frames, a.sem.Joints();
    match a.feedback
    case FromTargets(targets) =>
      if t > 0 {
        WindowsAgree(ActionRows(a.sem, a.m, targets), ActionRows(b.sem, b.m, b.feedback.targets), t - 1, frames, n);
      }
    case FromMeasured =>
      if t > 0 {
        WindowsAgree(ActionRows(a.sem, a.m, a.streams.q), ActionRows(b.sem, b.m, b.streams.q), t - 1, frames, n);
      }
    case _ =>
  }

  lemma AgreeEarlier(a: Setup, b: Setup, t: nat, u: nat)
    requires a.Valid() && b.Valid() && u <= t <= a.Ticks() && t <= b.Ticks() && AgreeBefore(a, b, t)
    ensures AgreeBefore(a, b, u)
  {
  }

  lemma SameDecision(a: Setup, b: Setup, t: nat, issued: seq<Row>)
    requires a.Valid() && b.Valid() && t < a.Ticks() && t < b.Ticks() && AgreeBefore(a, b, t + 1) && |issued| == t
    ensures StepOf(a)(t, issued) == StepOf(b)(t, issued)
  {
    var last := FeedbackWindow(a, t, issued);
    FeedbackAgrees(a, b, t, issued);
    BlocksAgree(a, b, t, last);
    assert Tick(a, t, last) == Tick(b, t, last);
  }

  // Whatever the feedback, the first t actions are a function of the inputs
  // before tick t: nothing later, and not even the stream length, matters.
  lemma {:induction false} Causal(a: Setup, b: Setup, t: nat)
    requires a.Valid() && b.Valid() && t <= a.Ticks() && t <= b.Ticks() && AgreeBefore(a, b, t)
    ensures Run(a, t) == Run(b, t)
  {
    assert a.sem == b.sem;
    hide Setup.Valid, AgreeBefore, StepOf, Iterate, AllWidth;
    forall u: nat, issued: seq<Row> | u < t && |issued| == u
      ensures StepOf(a)(u, issued) == StepOf(b)(u, issued)
    {
      AgreeEarlier(a, b, t, u + 1);
      SameDecision(a, b, u, issued);
    }
    IterateAgrees(StepOf(a), StepOf(b), a.sem.Joints(), t);
  }

  // The replay of the first k ticks only.
  function Truncated(x: Setup, k: nat): (y: Setup)
    requires x.Valid() && k <= x.Ticks()
    ensures y.Valid() && y.Ticks() == k
  {
    var s := x.streams;
    x.(streams := Streams(s.tokens[..k], s.q[..k], s.dq[..k], s.gravity[..k], s.angvel[..k]),
       feedback := match x.feedback
                   case FromTargets(targets) => FromTargets(targets[..k])
                   case other => other)
  }

  lemma TruncationAgrees(x: Setup, k: nat)
    requires x.Valid() && k <= x.Ticks()
    ensures AgreeBefore(x, Truncated(x, k), k)
  {
  }

  // Replaying a prefix gives the prefix of the replay.
  lemma {:induction false} PrefixReplay(x: Setup, k: nat)
    requires x.Valid() && k <= x.Ticks() && Replayed(x).Success?
    ensures Replayed(Truncated(x, k)).Success?
    ensures Replayed(Truncated(x, k)).value.action == Replayed(x).value.action[..k]
    ensures Replayed(Truncated(x, k)).value.qTarget == Replayed(x).value.qTarget[..k]
  {
    RunExtends(x, k, x.Ticks());
    TruncationAgrees(x, k);
    Causal(x, Truncated(x, k), k);
  }

  // --------------------------------------------------------- bounded memory

  // Two ticks, possibly of different replays, whose recent inputs are the same:
  // the token, the last `frames` state rows, and the `frames` feedback rows
  // before the tick.  Different positions are comparable once both histories
  // are full.
  ghost predicate SameRecent(a: Setup, ta: nat, b: Setup, tb: nat)
    requires a.Valid() && b.Valid() && ta < a.Ticks() && tb < b.Ticks()
  {
    && SameModel(a, b)
    && (ta == tb || (ta >= a.sem.frames && tb >= a.sem.frames))
    && a.streams.tokens[ta] == b.streams.tokens[tb]
    && SameBack(a.streams.q, ta, b.streams.q, tb, 0, a.sem.frames)
    && SameBack(a.streams.dq, ta, b.streams.dq, tb, 0, a.sem.frames)
    && SameBack(a.streams.gravity, ta, b.streams.gravity, tb, 0, a.sem.frames)
    && SameBack(a.streams.angvel, ta, b.streams.angvel, tb, 0, a.sem.frames)
    && match (a.feedback, b.feedback) {
         case (FromTargets(fa), FromTargets(fb)) => SameBack(fa, ta, fb, tb, 1, a.sem.frames + 1)
         case (FromMeasured, FromMeasured) => SameBack(a.streams.q, ta, b.streams.q, tb, 1, a.sem.frames + 1)
         case (FromZeros, FromZeros) => true
         case _ => false
       }
  }

  function Back(rows: seq<Row>, t: nat, back: nat): Row
    requires back <= t < |rows|
  {
    rows[t - back]
  }

  ghost predicate SameBack(va: seq<Row>, ta: nat, vb: seq<Row>, tb: nat, low: nat, high: nat)
    requires ta < |va| && tb < |vb|
  {
    forall back: nat :: low <= back < high && back <= ta && back <= tb ==> Back(va, ta, back) == Back(vb, tb, back)
  }

  lemma WindowsMatch(va: seq<Row>, ta: nat, vb: seq<Row>, tb: nat, frames: nat, width: nat)
    requires ta < |va| && tb < |vb|
    requires ta == tb || (ta >= frames - 1 && tb >= frames - 1)
    requires SameBack(va, ta, vb, tb, 0, frames)
    ensures HistoryWindow(va, ta, frames, width) == HistoryWindow(vb, tb, frames, width)
  {
    forall i | 0 <= i < frames
      ensures HistoryWindow(va, ta, frames, width)[i] == HistoryWindow(vb, tb, frames, width)[i]
    {
      var back := frames - 1 - i;
      assert back <= ta && back <= tb ==> Back(va, ta, back) == Back(vb, tb, back);
    }
  }

  // The window before a tick, read off rows that agree over its span.
  lemma PreviousMatch(a: Setup, va: seq<Row>, ta: nat, vb: seq<Row>, tb: nat)
    requires a.Valid() && ta < |va| && tb < |vb|
    requires AllWidth(va, a.sem.Joints()) && AllWidth(vb, a.sem.Joints())
    requires ta == tb || (ta >= a.sem.frames && tb >= a.sem.frames)
    requires SameBack(va, ta, vb, tb, 1, a.sem.frames + 1)
    ensures PreviousWindow(ActionRows(a.sem, a.m, va), ta, a.sem.frames, a.sem.Joints())
         == PreviousWindow(ActionRows(a.sem, a.m, vb), tb, a.sem.frames, a.sem.Joints())
  {
    if ta > 0 && tb > 0 {
      ShiftBack(va, ta, vb, tb, a.sem.frames);
      NormalisedBack(a, va, ta - 1, vb, tb - 1);
      WindowsMatch(ActionRows(a.sem, a.m, va), ta - 1, ActionRows(a.sem, a.m, vb), tb - 1,
                   a.sem.frames, a.sem.Joints());
    }
  }

  lemma RecentOutside(a: Setup, ta: nat, b: Setup, tb: nat)
    requires a.Valid() && b.Valid() && ta < a.Ticks() && tb < b.Ticks() && SameRecent(a, ta, b, tb)
    ensures OutsideWindow(a, ta) == OutsideWindow(b, tb)
  {
    match a.feedback
    case FromTargets(fa) => PreviousMatch(a, fa, ta, b.feedback.targets, tb);
    case FromMeasured => PreviousMatch(a, a.streams.q, ta, b.streams.q, tb);
    case _ =>
  }

  lemma ShiftBack(va: seq<Row>, ta: nat, vb: seq<Row>, tb: nat, frames: nat)
    requires 0 < ta < |va| && 0 < tb < |vb| && SameBack(va, ta, vb, tb, 1, frames + 1)
    ensures SameBack(va, ta - 1, vb, tb - 1, 0, frames)
  {
    var pa, pb := ta - 1, tb - 1;
    forall back: nat | back < frames && back <= pa && back <= pb
      ensures Back(va, pa, back) == Back(vb, pb, back)
    {
      assert Back(va, ta, back + 1) == Back(vb, tb, back + 1);
    }
  }

  lemma NormalisedBack(a: Setup, va: seq<Row>, ta: nat, vb: seq<Row>, tb: nat)
    requires a.Valid() && ta < |va| && tb < |vb|
    requires AllWidth(va, a.sem.Joints()) && AllWidth(vb, a.sem.Joints())
    requires SameBack(va, ta, vb, tb, 0, a.sem.frames)
    ensures SameBack(ActionRows(a.sem, a.m, va), ta, ActionRows(a.sem, a.m, vb), tb, 0, a.sem.frames)
  {
    forall back: nat | back < a.sem.frames && back <= ta && back <= tb
      ensures Back(ActionRows(a.sem, a.m, va), ta, back) == Back(ActionRows(a.sem, a.m, vb), tb, back)
    {
      assert Back(va, ta, back) == Back(vb, tb, back);
    }
  }

  lemma SlotsMatch(a: Setup, ta: nat, b: Setup, tb: nat)
    requires a.Valid() && b.Valid() && ta < a.Ticks() && tb < b.Ticks() && SameRecent(a, ta, b, tb)
    ensures SameBack(PositionSeries(a), ta, PositionSeries(b), tb, 0, a.sem.frames)
    ensures SameBack(VelocitySeries(a), ta, VelocitySeries(b), tb, 0, a.sem.frames)
  {
    SlotsBack(PositionSeries(a), ta, PositionSeries(b), tb, a.streams.q, b.streams.q,
              row requires |row| == a.sem.Joints() => PositionSlots(a.sem, a.m, row), a.sem.Joints(), a.sem.frames);
    SlotsBack(VelocitySeries(a), ta, VelocitySeries(b), tb, a.streams.dq, b.streams.dq,
              row requires |row| == a.sem.Joints() => VelocitySlots(a.sem, a.m, row), a.sem.Joints(), a.sem.frames);
  }

  // A row-wise image agrees wherever the rows do.
  lemma SlotsBack(sa: seq<Row>, ta: nat, sb: seq<Row>, tb: nat, va: seq<Row>, vb: seq<Row>, slots: Row --> Row,
                  width: nat, frames: nat)
    requires ta < |sa| == |va| && tb < |sb| == |vb| && AllWidth(va, width) && AllWidth(vb, width)
    requires forall row :: |row| == width ==> slots.requires(row)
    requires forall t :: 0 <= t < |sa| ==> sa[t] == slots(va[t])
    requires forall t :: 0 <= t < |sb| ==> sb[t] == slots(vb[t])
    requires SameBack(va, ta, vb, tb, 0, frames)
    ensures SameBack(sa, ta, sb, tb, 0, frames)
  {
    forall back: nat | back < frames && back <= ta && back <= tb
      ensures Back(sa, ta, back) == Back(sb, tb, back)
    {
      assert Back(va, ta, back) == Back(vb, tb, back);
    }
  }

  lemma RecentBlocks(a: Setup, ta: nat, b: Setup, tb: nat, last: Window)
    requires a.Valid() && b.Valid() && ta < a.Ticks() && tb < b.Ticks() && SameRecent(a, ta, b, tb)
    ensures BlocksAt(a, ta, last) == BlocksAt(b, tb, last)
  {
    var frames, n := a.sem.frames, a.sem.Joints();
    SlotsMatch(a, ta, b, tb);
    WindowsMatch(a.streams.angvel, ta, b.streams.angvel, tb, frames, 3);
    WindowsMatch(a.streams.gravity, ta, b.streams.gravity, tb, frames, 3);
    WindowsMatch(PositionSeries(a), ta, PositionSeries(b), tb, frames, n);
    WindowsMatch(VelocitySeries(a), ta, VelocitySeries(b), tb, frames, n);
  }

  lemma {:induction false} ActionIsTick(x: Setup, t: nat)
    requires x.Valid() && t < x.Ticks() && !x.feedback.FromOwnActions? && Run(x, x.Ticks()).Success?
    ensures Tick(x, t, OutsideWindow(x, t)) == Success(Run(x, x.Ticks()).value[t])
  {
    RunExtends(x, t + 1, x.Ticks());
    RunExtends(x, t, x.Ticks());
    var actions := Run(x, x.Ticks()).value;
    var issued := Run(x, t).value;
    assert FeedbackWindow(x, t, issued) == OutsideWindow(x, t);
    hide Run, Tick, OutsideWindow, FeedbackWindow, Setup.Valid;
    RunStep(x, t, issued);
    assert actions[..t + 1][t] == actions[t];
  }

  // Without the recurrence an action depends on the recent inputs alone, in
  // any replay and at any position.
  lemma {:induction false} BoundedMemory(a: Setup, ta: nat, b: Setup, tb: nat)
    requires a.Valid() && b.Valid() && ta < a.Ticks() && tb < b.Ticks() && SameRecent(a, ta, b, tb)
    requires Run(a, a.Ticks()).Success? && Run(b, b.Ticks()).Success?
    ensures Run(a, a.Ticks()).value[ta] == Run(b, b.Ticks()).value[tb]
  {
    ActionIsTick(a, ta);
    ActionIsTick(b, tb);
    RecentOutside(a, ta, b, tb);
    RecentBlocks(a, ta, b, tb, OutsideWindow(a, ta));
  }
}
