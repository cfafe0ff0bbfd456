// What a replay's decoder is shown and what it returns, cell by cell: an account
// of a run that mentions none of the functions the replay is built from.
module ReplayCells {
  import opened Outcome
  import opened ObservationLayout
  import opened Permutations
  import opened DecoderReplay

  // ------------------------------------------------------------------- cells

  // Cell c of row f in a block of rows laid end to end.
  ghost function CellAt(obs: Row, offset: nat, width: nat, f: nat, c: nat): real {
    var index := offset + f * width + c;
    if index < |obs| then obs[index] else 0.0
  }

  // The rows that end at tick t, oldest first, zero before tick 0.
  ghost predicate ShowsRows(obs: Row, offset: nat, rows: seq<Row>, t: nat, frames: nat)
    requires t < |rows| && AllWidth(rows, 3)
  {
    forall f: nat, c: nat :: f < frames && c < 3 ==>
      CellAt(obs, offset, 3, f, c) == if t + 1 + f < frames then 0.0 else rows[t + 1 + f - frames][c]
  }

  // Joint h's offset from its default pose stands in slot perm[h] of its frame.
  ghost predicate ShowsPositions(x: Setup, t: nat, obs: Row, offset: nat)
    requires x.Valid() && t < x.Ticks()
  {
    forall f: nat, h: nat :: f < x.sem.frames && h < x.sem.Joints() ==>
      CellAt(obs, offset, x.sem.Joints(), f, x.m.perm[h])
      == if t + 1 + f < x.sem.frames then 0.0 else x.streams.q[t + 1 + f - x.sem.frames][h] - x.sem.defaults[h]
  }

  ghost predicate ShowsVelocities(x: Setup, t: nat, obs: Row, offset: nat)
    requires x.Valid() && t < x.Ticks()
  {
    forall f: nat, h: nat :: f < x.sem.frames && h < x.sem.Joints() ==>
      CellAt(obs, offset, x.sem.Joints(), f, x.m.perm[h])
      == if t + 1 + f < x.sem.frames then 0.0 else x.streams.dq[t + 1 + f - x.sem.frames][h]
  }

  // What slot perm[h] of frame f of the action history holds at tick t: a row
  // from before the tick, or what stands in for rows before tick 0.
  ghost function PastAction(x: Setup, t: nat, issued: seq<Row>, f: nat, h: nat): real
    requires x.Valid() && t < x.Ticks() && |issued| == t && AllWidth(issued, x.sem.Joints())
    requires f < x.sem.frames && h < x.sem.Joints()
  {
    var early, k := t + f < x.sem.frames, t + f - x.sem.frames;
    match x.feedback
    case FromTargets(targets) => if early then 0.0 else (targets[k][h] - x.sem.defaults[h]) / x.sem.scale[h]
    case FromMeasured => if early then 0.0 else (x.streams.q[k][h] - x.sem.defaults[h]) / x.sem.scale[h]
    case FromZeros => 0.0
    case FromOwnActions(seed) =>
      if early then (seed[h] - x.sem.defaults[h]) / x.sem.scale[h] else issued[k][x.m.perm[h]]
  }

  ghost predicate ShowsActions(x: Setup, t: nat, issued: seq<Row>, obs: Row, offset: nat)
    requires x.Valid() && t < x.Ticks() && |issued| == t && AllWidth(issued, x.sem.Joints())
  {
    forall f: nat, h: nat :: f < x.sem.frames && h < x.sem.Joints() ==>
      CellAt(obs, offset, x.sem.Joints(), f, x.m.perm[h]) == PastAction(x, t, issued, f, h)
  }

  // ----------------------------------------------------------------- entries

  // The width of each block there is.
  ghost function NamedWidth(token: nat, frames: nat, joints: nat, name: string): Option<nat> {
    if name == "token_state" then Some(token)
    else if name == "his_base_angular_velocity_10frame_step1" then Some(frames * 3)
    else if name == "his_body_joint_positions_10frame_step1" then Some(frames * joints)
    else if name == "his_body_joint_velocities_10frame_step1" then Some(frames * joints)
    else if name == "his_last_actions_10frame_step1" then Some(frames * joints)
    else if name == "his_gravity_dir_10frame_step1" then Some(frames * 3)
    else None
  }

  ghost function KnownWidth(x: Setup, t: nat, name: string): Option<nat>
    requires x.Valid() && t < x.Ticks()
  {
    NamedWidth(|x.streams.tokens[t]|, x.sem.frames, x.sem.Joints(), name)
  }

  ghost predicate DimFits(x: Setup, t: nat, e: Entry)
    requires x.Valid() && t < x.Ticks()
  {
    KnownWidth(x, t, e.name) == Some(e.dim)
  }

  // Entry e of the layout holds what its name says.
  ghost predicate EntryShows(x: Setup, t: nat, issued: seq<Row>, e: Entry, obs: Row)
    requires x.Valid() && t < x.Ticks() && |issued| == t && AllWidth(issued, x.sem.Joints())
  {
    && DimFits(x, t, e)
    && e.offset + e.dim <= |obs|
    && (e.name == "token_state" ==>
          forall c :: 0 <= c < e.dim ==> obs[e.offset + c] == x.streams.tokens[t][c])
    && (e.name == "his_base_angular_velocity_10frame_step1" ==>
          ShowsRows(obs, e.offset, x.streams.angvel, t, x.sem.frames))
    && (e.name == "his_body_joint_positions_10frame_step1" ==> ShowsPositions(x, t, obs, e.offset))
    && (e.name == "his_body_joint_velocities_10frame_step1" ==> ShowsVelocities(x, t, obs, e.offset))
    && (e.name == "his_last_actions_10frame_step1" ==> ShowsActions(x, t, issued, obs, e.offset))
    && (e.name == "his_gravity_dir_10frame_step1" ==>
          ShowsRows(obs, e.offset, x.streams.gravity, t, x.sem.frames))
  }

  // The observation of tick t, after the actions issued before it.
  ghost predicate Shows(x: Setup, t: nat, issued: seq<Row>, obs: Row)
    requires x.Valid() && t < x.Ticks() && |issued| == t && AllWidth(issued, x.sem.Joints())
  {
    && |obs| == Width(x.sem.layout)
    && forall i :: 0 <= i < |x.sem.layout| ==> EntryShows(x, t, issued, x.sem.layout[i], obs)
  }

  // ------------------------------------------------------- rows laid end to end

  lemma {:induction false} FlattenSize(w: Window, width: nat)
    requires AllWidth(w, width)
    ensures |Flatten(w)| == |w| * width
  {
    if w != [] {
      FlattenSize(w[1..], width);
      assert |w| * width == width + |w[1..]| * width;
    }
  }

  lemma {:induction false} FlattenAt(w: Window, width: nat, f: nat, c: nat)
    requires AllWidth(w, width) && f < |w| && c < width
    ensures f * width + c < |Flatten(w)| && Flatten(w)[f * width + c] == w[f][c]
    decreases f
  {
    FlattenSize(w[1..], width);
    if f > 0 {
      FlattenAt(w[1..], width, f - 1, c);
      assert f * width + c == width + ((f - 1) * width + c);
    }
  }

  lemma WindowCell(obs: Row, offset: nat, w: Window, width: nat, f: nat, c: nat)
    requires AllWidth(w, width) && f < |w| && c < width
    requires offset + |Flatten(w)| <= |obs| && obs[offset..offset + |Flatten(w)|] == Flatten(w)
    ensures CellAt(obs, offset, width, f, c) == w[f][c]
  {
    FlattenAt(w, width, f, c);
    var index := f * width + c;
    assert obs[offset..offset + |Flatten(w)|][index] == obs[offset + index];
  }

  // ------------------------------------------------------ what the windows hold

  lemma HistoryCell(rows: seq<Row>, t: nat, frames: nat, width: nat)
    requires t < |rows| && AllWidth(rows, width)
    ensures AllWidth(HistoryWindow(rows, t, frames, width), width)
    ensures forall f, c :: 0 <= f < frames && 0 <= c < width ==>
              HistoryWindow(rows, t, frames, width)[f][c]
              == if t + 1 + f < frames then 0.0 else rows[t + 1 + f - frames][c]
  {
    var w := HistoryWindow(rows, t, frames, width);
    forall f | 0 <= f < frames
      ensures |w[f]| == width
      ensures forall c :: 0 <= c < width ==>
                w[f][c] == if t + 1 + f < frames then 0.0 else rows[t + 1 + f - frames][c]
    {
      var tick := t + 1 - frames + f;
      assert w[f] == if tick < 0 then ZeroRow(width) else rows[tick];
    }
  }

  lemma PreviousCell(rows: seq<Row>, t: nat, frames: nat, width: nat)
    requires t <= |rows| && AllWidth(rows, width)
    ensures AllWidth(PreviousWindow(rows, t, frames, width), width)
    ensures forall f, c :: 0 <= f < frames && 0 <= c < width ==>
              PreviousWindow(rows, t, frames, width)[f][c]
              == if t + f < frames then 0.0 else rows[t + f - frames][c]
  {
    if t > 0 {
      HistoryCell(rows, t - 1, frames, width);
      hide HistoryWindow;
    }
  }

  // A window laid out as a block, cell by cell.
  lemma BlockCells(obs: Row, offset: nat, w: Window, width: nat)
    requires AllWidth(w, width)
    requires offset + |Flatten(w)| <= |obs| && obs[offset..offset + |Flatten(w)|] == Flatten(w)
    ensures forall f: nat, c: nat :: f < |w| && c < width ==> CellAt(obs, offset, width, f, c) == w[f][c]
  {
    hide Flatten, CellAt;
    forall f: nat, c: nat | f < |w| && c < width
      ensures CellAt(obs, offset, width, f, c) == w[f][c]
    {
      WindowCell(obs, offset, w, width, f, c);
    }
  }

  ghost predicate Holds(obs: Row, offset: nat, block: Row) {
    offset + |block| <= |obs| && obs[offset..offset + |block|] == block
  }

  // A history laid out as a block, cell by cell.
  lemma HistoryBlock(obs: Row, offset: nat, rows: seq<Row>, t: nat, frames: nat, width: nat)
    requires t < |rows| && AllWidth(rows, width)
    requires Holds(obs, offset, Flatten(HistoryWindow(rows, t, frames, width)))
    ensures forall f: nat, c: nat :: f < frames && c < width ==>
              CellAt(obs, offset, width, f, c) == if t + 1 + f < frames then 0.0 else rows[t + 1 + f - frames][c]
  {
    HistoryCell(rows, t, frames, width);
    hide HistoryWindow, Flatten, CellAt;
    BlockCells(obs, offset, HistoryWindow(rows, t, frames, width), width);
  }

  lemma RowsShown(obs: Row, offset: nat, rows: seq<Row>, t: nat, frames: nat)
    requires t < |rows| && AllWidth(rows, 3) && Holds(obs, offset, Flatten(HistoryWindow(rows, t, frames, 3)))
    ensures ShowsRows(obs, offset, rows, t, frames)
  {
    HistoryBlock(obs, offset, rows, t, frames, 3);
  }

  lemma SlotRows(x: Setup)
    requires x.Valid()
    ensures AllWidth(PositionSeries(x), x.sem.Joints()) && AllWidth(VelocitySeries(x), x.sem.Joints())
    ensures forall h :: 0 <= h < x.sem.Joints() ==> 0 <= x.m.perm[h] < x.sem.Joints()
    ensures forall k, h :: 0 <= k < |x.streams.q| && 0 <= h < x.sem.Joints() ==>
              PositionSeries(x)[k][x.m.perm[h]] == x.streams.q[k][h] - x.sem.defaults[h]
    ensures forall k, h :: 0 <= k < |x.streams.dq| && 0 <= h < x.sem.Joints() ==>
              VelocitySeries(x)[k][x.m.perm[h]] == x.streams.dq[k][h]
  {
    hide PositionSlots, VelocitySlots, ActionRow;
    forall k, h | 0 <= k < |x.streams.q| && 0 <= h < x.sem.Joints()
      ensures PositionSeries(x)[k][x.m.perm[h]] == x.streams.q[k][h] - x.sem.defaults[h]
    {
      HistorySlot(x.sem, x.m, x.streams.q[k], x.streams.q[k], h);
    }
    forall k, h | 0 <= k < |x.streams.dq| && 0 <= h < x.sem.Joints()
      ensures VelocitySeries(x)[k][x.m.perm[h]] == x.streams.dq[k][h]
    {
      HistorySlot(x.sem, x.m, x.streams.dq[k], x.streams.dq[k], h);
    }
  }

  lemma PositionsShown(x: Setup, t: nat, obs: Row, offset: nat)
    requires x.Valid() && t < x.Ticks()
    requires Holds(obs, offset, Flatten(HistoryWindow(PositionSeries(x), t, x.sem.frames, x.sem.Joints())))
    ensures ShowsPositions(x, t, obs, offset)
  {
    var frames, n, perm, rows := x.sem.frames, x.sem.Joints(), x.m.perm, PositionSeries(x);
    assert t < |x.streams.q| == |rows| && |perm| == n;
    SlotRows(x);
    HistoryBlock(obs, offset, rows, t, frames, n);
    forall f: nat, h: nat | f < frames && h < n
      ensures CellAt(obs, offset, n, f, perm[h])
           == if t + 1 + f < frames then 0.0 else x.streams.q[t + 1 + f - frames][h] - x.sem.defaults[h]
    {
      hide *;
      var c: nat := perm[h];
      assert CellAt(obs, offset, n, f, c) == if t + 1 + f < frames then 0.0 else rows[t + 1 + f - frames][c];
    }
  }

  lemma VelocitiesShown(x: Setup, t: nat, obs: Row, offset: nat)
    requires x.Valid() && t < x.Ticks()
    requires Holds(obs, offset, Flatten(HistoryWindow(VelocitySeries(x), t, x.sem.frames, x.sem.Joints())))
    ensures ShowsVelocities(x, t, obs, offset)
  {
    var frames, n, perm, rows := x.sem.frames, x.sem.Joints(), x.m.perm, VelocitySeries(x);
    assert t < |x.streams.dq| == |rows| && |perm| == n;
    SlotRows(x);
    HistoryBlock(obs, offset, rows, t, frames, n);
    forall f: nat, h: nat | f < frames && h < n
      ensures CellAt(obs, offset, n, f, perm[h])
           == if t + 1 + f < frames then 0.0 else x.streams.dq[t + 1 + f - frames][h]
    {
      hide *;
      var c: nat := perm[h];
      assert CellAt(obs, offset, n, f, c) == if t + 1 + f < frames then 0.0 else rows[t + 1 + f - frames][c];
    }
  }

  // Normalised rows, by slot.
  lemma ActionSlots(x: Setup, rows: seq<Row>)
    requires x.Valid() && AllWidth(rows, x.sem.Joints())
    ensures AllWidth(ActionRows(x.sem, x.m, rows), x.sem.Joints())
    ensures forall k, h :: 0 <= k < |rows| && 0 <= h < x.sem.Joints() ==>
              0 <= x.m.perm[h] < x.sem.Joints()
              && ActionRows(x.sem, x.m, rows)[k][x.m.perm[h]] == (rows[k][h] - x.sem.defaults[h]) / x.sem.scale[h]
  {
    hide ActionRow;
    forall k, h | 0 <= k < |rows| && 0 <= h < x.sem.Joints()
      ensures 0 <= x.m.perm[h] < x.sem.Joints()
      ensures ActionRows(x.sem, x.m, rows)[k][x.m.perm[h]] == (rows[k][h] - x.sem.defaults[h]) / x.sem.scale[h]
    {
      ActionSlot(x.sem, x.m, rows[k], h);
    }
  }

  // The feedback window, by slot.
  lemma PastActions(x: Setup, t: nat, issued: seq<Row>)
    requires x.Valid() && t < x.Ticks() && |issued| == t && AllWidth(issued, x.sem.Joints())
    ensures AllWidth(FeedbackWindow(x, t, issued), x.sem.Joints())
    ensures forall f, h :: 0 <= f < x.sem.frames && 0 <= h < x.sem.Joints() ==>
              0 <= x.m.perm[h] < x.sem.Joints()
              && FeedbackWindow(x, t, issued)[f][x.m.perm[h]] == PastAction(x, t, issued, f, h)
  {
    var frames, n := x.sem.frames, x.sem.Joints();
    match x.feedback
    case FromTargets(targets) =>
      ActionSlots(x, targets);
      PreviousCell(ActionRows(x.sem, x.m, targets), t, frames, n);
      hide PreviousWindow, ActionRows;
    case FromMeasured =>
      ActionSlots(x, x.streams.q);
      PreviousCell(ActionRows(x.sem, x.m, x.streams.q), t, frames, n);
      hide PreviousWindow, ActionRows;
    case FromZeros =>
      assert forall h :: 0 <= h < n ==> 0 <= x.m.perm[h] < n;
    case FromOwnActions(seed) =>
      ActionSlots(x, [seed]);
      SeedFirst(x, t, issued);
  }

  lemma SeedFirst(x: Setup, t: nat, issued: seq<Row>)
    requires x.Valid() && x.feedback.FromOwnActions? && t < x.Ticks() && |issued| == t
    ensures forall f :: 0 <= f < x.sem.frames ==>
              FeedbackWindow(x, t, issued)[f]
              == if t + f < x.sem.frames then ActionRows(x.sem, x.m, [x.feedback.seed])[0]
                 else issued[t + f - x.sem.frames]
  {
    hide ActionRow;
  }

  lemma ActionsShown(x: Setup, t: nat, issued: seq<Row>, obs: Row, offset: nat)
    requires x.Valid() && t < x.Ticks() && |issued| == t && AllWidth(issued, x.sem.Joints())
    requires Holds(obs, offset, Flatten(FeedbackWindow(x, t, issued)))
    ensures ShowsActions(x, t, issued, obs, offset)
  {
    var frames, n := x.sem.frames, x.sem.Joints();
    var w := FeedbackWindow(x, t, issued);
    PastActions(x, t, issued);
    hide Flatten, CellAt, FeedbackWindow, PastAction, Setup.Valid;
    BlockCells(obs, offset, w, n);
    forall f: nat, h: nat | f < frames && h < n
      ensures CellAt(obs, offset, n, f, x.m.perm[h]) == PastAction(x, t, issued, f, h)
    {
      var c: nat := x.m.perm[h];
      assert CellAt(obs, offset, n, f, c) == w[f][c];
    }
  }

  // --------------------------------------------------------- the observation

  // Which blocks are supplied, and how wide they are.
  lemma BlockSizes(x: Setup, t: nat, issued: seq<Row>, name: string)
    requires x.Valid() && t < x.Ticks() && |issued| == t && AllWidth(issued, x.sem.Joints())
    ensures var blocks := BlocksAt(x, t, FeedbackWindow(x, t, issued));
            KnownWidth(x, t, name) == if name in blocks then Some(|blocks[name]|) else None
  {
    var frames, n := x.sem.frames, x.sem.Joints();
    SlotRows(x);
    PastActions(x, t, issued);
    HistoryCell(PositionSeries(x), t, frames, n);
    HistoryCell(VelocitySeries(x), t, frames, n);
    HistoryCell(x.streams.angvel, t, frames, 3);
    HistoryCell(x.streams.gravity, t, frames, 3);
    hide Flatten, HistoryWindow, FeedbackWindow, PositionSeries, VelocitySeries, AllWidth, Blocks;
    SuppliedWidths(x.streams.tokens[t], HistoryWindow(x.streams.angvel, t, frames, 3),
                   HistoryWindow(PositionSeries(x), t, frames, n), HistoryWindow(VelocitySeries(x), t, frames, n),
                   FeedbackWindow(x, t, issued), HistoryWindow(x.streams.gravity, t, frames, 3), frames, n, name);
  }

  lemma SuppliedWidths(token: Row, angvel: Window, q: Window, dq: Window, last: Window, gravity: Window,
                       frames: nat, n: nat, name: string)
    requires |angvel| == |q| == |dq| == |last| == |gravity| == frames
    requires AllWidth(angvel, 3) && AllWidth(gravity, 3) && AllWidth(q, n) && AllWidth(dq, n) && AllWidth(last, n)
    ensures var blocks := Blocks(token, angvel, q, dq, last, gravity);
            NamedWidth(|token|, frames, n, name) == if name in blocks then Some(|blocks[name]|) else None
  {
    FlattenSize(angvel, 3);
    FlattenSize(q, n);
    FlattenSize(dq, n);
    FlattenSize(last, n);
    FlattenSize(gravity, 3);
    hide Flatten, AllWidth;
  }

  lemma EntryShown(x: Setup, t: nat, issued: seq<Row>, e: Entry, obs: Row)
    requires x.Valid() && t < x.Ticks() && |issued| == t && AllWidth(issued, x.sem.Joints())
    requires var blocks := BlocksAt(x, t, FeedbackWindow(x, t, issued));
             e.name in blocks && |blocks[e.name]| == e.dim && Holds(obs, e.offset, blocks[e.name])
    ensures EntryShows(x, t, issued, e, obs)
  {
    var frames, n := x.sem.frames, x.sem.Joints();
    var blocks := BlocksAt(x, t, FeedbackWindow(x, t, issued));
    BlockSizes(x, t, issued, e.name);
    hide Flatten, HistoryWindow, FeedbackWindow, PositionSeries, VelocitySeries;
    hide ShowsRows, ShowsPositions, ShowsVelocities, ShowsActions;
    if e.name == "token_state" {
      TokensShown(x, t, obs, e.offset);
    } else if e.name == "his_base_angular_velocity_10frame_step1" {
      RowsShown(obs, e.offset, x.streams.angvel, t, frames);
    } else if e.name == "his_body_joint_positions_10frame_step1" {
      PositionsShown(x, t, obs, e.offset);
    } else if e.name == "his_body_joint_velocities_10frame_step1" {
      VelocitiesShown(x, t, obs, e.offset);
    } else if e.name == "his_last_actions_10frame_step1" {
      ActionsShown(x, t, issued, obs, e.offset);
    } else {
      RowsShown(obs, e.offset, x.streams.gravity, t, frames);
    }
  }

  lemma TokensShown(x: Setup, t: nat, obs: Row, offset: nat)
    requires x.Valid() && t < x.Ticks() && Holds(obs, offset, x.streams.tokens[t])
    ensures forall c :: 0 <= c < |x.streams.tokens[t]| ==> obs[offset + c] == x.streams.tokens[t][c]
  {
    var token := x.streams.tokens[t];
    forall c | 0 <= c < |token|
      ensures obs[offset + c] == token[c]
    {
      assert obs[offset..offset + |token|][c] == obs[offset + c];
    }
  }

  // The complaint about tick t: its first entry that is unknown or of another
  // width, or else the total width.
  ghost predicate Complains(x: Setup, t: nat, error: ReplayError)
    requires x.Valid() && t < x.Ticks()
  {
    var layout := x.sem.layout;
    || (exists i :: FirstMisfit(x, t, i)
                    && error == match KnownWidth(x, t, layout[i].name)
                                case None => NoBuilder(layout[i].name)
                                case Some(got) => WrongBlockWidth(layout[i].name, got, layout[i].dim))
    || ((forall i :: 0 <= i < |layout| ==> DimFits(x, t, layout[i]))
        && Width(layout) != x.decoder.inputDim && error == WrongObservationWidth(Width(layout), x.decoder.inputDim))
  }

  ghost predicate FirstMisfit(x: Setup, t: nat, i: int)
    requires x.Valid() && t < x.Ticks()
  {
    && 0 <= i < |x.sem.layout| && !DimFits(x, t, x.sem.layout[i])
    && forall j :: 0 <= j < i ==> DimFits(x, t, x.sem.layout[j])
  }

  lemma WidthsKnown(x: Setup, t: nat, issued: seq<Row>)
    requires x.Valid() && t < x.Ticks() && |issued| == t && AllWidth(issued, x.sem.Joints())
    ensures var layout, blocks := x.sem.layout, BlocksAt(x, t, FeedbackWindow(x, t, issued));
            forall i :: 0 <= i < |layout| ==>
              && (DimFits(x, t, layout[i]) <==> BlockFits(layout[i], blocks))
              && KnownWidth(x, t, layout[i].name)
                 == if layout[i].name in blocks then Some(|blocks[layout[i].name]|) else None
  {
    hide BlocksAt, FeedbackWindow, KnownWidth, Setup.Valid;
    forall i | 0 <= i < |x.sem.layout| {
      BlockSizes(x, t, issued, x.sem.layout[i].name);
    }
  }

  // An observation of the layout's names and widths can be assembled, and shows
  // what `Shows` says; any other layout draws its complaint.
  lemma {:induction false} ObservationShows(x: Setup, t: nat, issued: seq<Row>)
    requires x.Valid() && t < x.Ticks() && |issued| == t && AllWidth(issued, x.sem.Joints())
    ensures var r := Assemble(x.sem.layout, BlocksAt(x, t, FeedbackWindow(x, t, issued)));
            && (r.Success? <==> forall i :: 0 <= i < |x.sem.layout| ==> DimFits(x, t, x.sem.layout[i]))
            && (r.Success? ==> Shows(x, t, issued, r.value))
  {
    var layout, blocks := x.sem.layout, BlocksAt(x, t, FeedbackWindow(x, t, issued));
    assert Contiguous(layout);
    WidthsKnown(x, t, issued);
    hide BlocksAt, FeedbackWindow, Assemble, Contiguous, EntryShows, Width, DimFits, KnownWidth, Setup.Valid;
    AssemblesWhen(layout, blocks);
    var r := Assemble(layout, blocks);
    if r.Success? {
      BlocksReadBack(layout, blocks, |layout|);
      forall i | 0 <= i < |layout|
        ensures EntryShows(x, t, issued, layout[i], r.value)
      {
        BlocksReadBack(layout, blocks, i);
        EntryShown(x, t, issued, layout[i], r.value);
      }
    }
  }

  lemma ObservationComplains(x: Setup, t: nat, issued: seq<Row>)
    requires x.Valid() && t < x.Ticks() && |issued| == t && AllWidth(issued, x.sem.Joints())
    requires Assemble(x.sem.layout, BlocksAt(x, t, FeedbackWindow(x, t, issued))).Failure?
    ensures Complains(x, t, Assemble(x.sem.layout, BlocksAt(x, t, FeedbackWindow(x, t, issued))).error)
  {
    var layout, blocks := x.sem.layout, BlocksAt(x, t, FeedbackWindow(x, t, issued));
    WidthsKnown(x, t, issued);
    hide BlocksAt, FeedbackWindow, Assemble, DimFits, KnownWidth, BlockFits, Setup.Valid;
    AssembleComplains(layout, blocks);
    var i :| FirstBadBlock(layout, blocks, i) && Assemble(layout, blocks).error == BlockComplaint(layout[i], blocks);
    assert FirstMisfit(x, t, i);
  }

  // ------------------------------------------------ the observation is determined

  // Every cell of a block of rows is some row's and some slot's.
  lemma CellIndex(frames: nat, width: nat, local: nat)
    requires local < frames * width
    ensures width > 0 && local / width < frames && local % width < width
    ensures local == local / width * width + local % width
  {
    QuotientBelow(local, width, frames);
  }

  lemma QuotientBelow(a: nat, width: nat, b: nat)
    requires width > 0 && a < b * width
    ensures a / width < b
  {
    var k := a / width - b;
    assert a == (b + k) * width + a % width;
    assert (b + k) * width == b * width + k * width;
    assert k >= 0 ==> k * width >= 0;
  }

  lemma RowsDetermined(a: Row, b: Row, offset: nat, rows: seq<Row>, t: nat, frames: nat, local: nat)
    requires t < |rows| && AllWidth(rows, 3) && local < frames * 3
    requires offset + frames * 3 <= |a| && offset + frames * 3 <= |b|
    requires ShowsRows(a, offset, rows, t, frames) && ShowsRows(b, offset, rows, t, frames)
    ensures a[offset + local] == b[offset + local]
  {
    CellIndex(frames, 3, local);
    var f, c := local / 3, local % 3;
    assert CellAt(a, offset, 3, f, c) == CellAt(b, offset, 3, f, c);
  }

  // A block given slot by slot is given cell by cell, since the slots are a
  // permutation.
  lemma SlotsDetermined(perm: seq<int>, a: Row, b: Row, offset: nat, frames: nat, local: nat)
    requires IsPermutation(perm) && local < frames * |perm|
    requires offset + frames * |perm| <= |a| && offset + frames * |perm| <= |b|
    requires forall f: nat, h: nat :: f < frames && h < |perm| ==>
               CellAt(a, offset, |perm|, f, perm[h]) == CellAt(b, offset, |perm|, f, perm[h])
    ensures a[offset + local] == b[offset + local]
  {
    CellIndex(frames, |perm|, local);
    var f, c := local / |perm|, local % |perm|;
    PermutationIsOnto(perm, c);
    var h :| 0 <= h < |perm| && perm[h] == c;
    assert CellAt(a, offset, |perm|, f, perm[h]) == CellAt(b, offset, |perm|, f, perm[h]);
  }

  lemma EntryDetermined(x: Setup, t: nat, issued: seq<Row>, e: Entry, a: Row, b: Row, cell: nat)
    requires x.Valid() && t < x.Ticks() && |issued| == t && AllWidth(issued, x.sem.Joints())
    requires EntryShows(x, t, issued, e, a) && EntryShows(x, t, issued, e, b) && Covers(e, cell)
    ensures cell < |a| && cell < |b| && a[cell] == b[cell]
  {
    hide CellAt, PastAction, ShowsRows, ShowsPositions, ShowsVelocities, ShowsActions;
    var frames, local := x.sem.frames, cell - e.offset;
    if e.name == "token_state" {
      assert a[e.offset + local] == x.streams.tokens[t][local];
    } else if e.name == "his_base_angular_velocity_10frame_step1" {
      RowsDetermined(a, b, e.offset, x.streams.angvel, t, frames, local);
    } else if e.name == "his_gravity_dir_10frame_step1" {
      RowsDetermined(a, b, e.offset, x.streams.gravity, t, frames, local);
    } else {
      JointsDetermined(x, t, issued, e, a, b);
      assert e.dim == frames * |x.m.perm|;
      assert e.offset + e.dim <= |a| && e.offset + e.dim <= |b|;
      hide EntryShows, Setup.Valid;
      SlotsDetermined(x.m.perm, a, b, e.offset, frames, local);
    }
  }

  lemma JointsDetermined(x: Setup, t: nat, issued: seq<Row>, e: Entry, a: Row, b: Row)
    requires x.Valid() && t < x.Ticks() && |issued| == t && AllWidth(issued, x.sem.Joints())
    requires || (ShowsPositions(x, t, a, e.offset) && ShowsPositions(x, t, b, e.offset))
             || (ShowsVelocities(x, t, a, e.offset) && ShowsVelocities(x, t, b, e.offset))
             || (ShowsActions(x, t, issued, a, e.offset) && ShowsActions(x, t, issued, b, e.offset))
    ensures |x.m.perm| == x.sem.Joints() && IsPermutation(x.m.perm)
    ensures forall f: nat, h: nat :: f < x.sem.frames && h < |x.m.perm| ==>
              CellAt(a, e.offset, |x.m.perm|, f, x.m.perm[h]) == CellAt(b, e.offset, |x.m.perm|, f, x.m.perm[h])
  {
    hide CellAt, PastAction;
  }

  lemma CoveredDetermined(layout: seq<Entry>, a: Row, b: Row)
    requires Contiguous(layout) && |a| == |b| == Width(layout)
    requires forall i, cell :: 0 <= i < |layout| && 0 <= cell < |a| && Covers(layout[i], cell) ==> a[cell] == b[cell]
    ensures a == b
  {
    hide Contiguous, Width, Covers;
    forall cell | 0 <= cell < |a|
      ensures a[cell] == b[cell]
    {
      EachCellCoveredOnce(layout, cell);
    }
  }

  // Only one vector shows what tick t shows.
  lemma {:induction false} ShowsDetermines(x: Setup, t: nat, issued: seq<Row>, a: Row, b: Row)
    requires x.Valid() && t < x.Ticks() && |issued| == t && AllWidth(issued, x.sem.Joints())
    requires Shows(x, t, issued, a) && Shows(x, t, issued, b)
    ensures a == b
  {
    var layout := x.sem.layout;
    assert Contiguous(layout);
    hide EntryShows, Width, Contiguous, Covers, Setup.Valid;
    forall i, cell | 0 <= i < |layout| && 0 <= cell < |a| && Covers(layout[i], cell)
      ensures a[cell] == b[cell]
    {
      EntryDetermined(x, t, issued, layout[i], a, b, cell);
    }
    CoveredDetermined(layout, a, b);
  }

  // -------------------------------------------------------------- the run

  // Tick t can be decided: the layout's entries have known names and the widths
  // of their blocks, and the widths add up to the decoder's input.
  ghost predicate Fits(x: Setup, t: nat)
    requires x.Valid() && t < x.Ticks()
  {
    && (forall i :: 0 <= i < |x.sem.layout| ==> DimFits(x, t, x.sem.layout[i]))
    && Width(x.sem.layout) == x.decoder.inputDim
  }

  // Each action is what the decoder returns for the observation of its tick.
  ghost predicate Decided(x: Setup, actions: seq<Row>)
    requires x.Valid() && |actions| <= x.Ticks() && AllWidth(actions, x.sem.Joints())
  {
    forall t: nat :: t < |actions| ==> DecidedAt(x, actions, t)
  }

  ghost predicate DecidedAt(x: Setup, actions: seq<Row>, t: nat)
    requires x.Valid() && t < |actions| <= x.Ticks() && AllWidth(actions, x.sem.Joints())
  {
    exists obs :: Shows(x, t, actions[..t], obs) && |obs| == x.decoder.inputDim && actions[t] == x.decoder.run(obs)
  }

  lemma TickShows(x: Setup, t: nat, issued: seq<Row>)
    requires x.Valid() && t < x.Ticks() && |issued| == t && AllWidth(issued, x.sem.Joints())
    ensures var r := Tick(x, t, FeedbackWindow(x, t, issued));
            && (r.Success? <==> Fits(x, t))
            && (r.Success? ==> exists obs :: Shows(x, t, issued, obs) && |obs| == x.decoder.inputDim
                                             && r.value == x.decoder.run(obs))
            && (r.Failure? ==> Complains(x, t, r.error))
  {
    TickIs(x, t, FeedbackWindow(x, t, issued));
    ObservationShows(x, t, issued);
    var assembled := Assemble(x.sem.layout, BlocksAt(x, t, FeedbackWindow(x, t, issued)));
    hide Tick, Assemble, BlocksAt, FeedbackWindow, DimFits, EntryShows, Setup.Valid;
    if assembled.Success? {
      assert |assembled.value| == Width(x.sem.layout);
      assert Shows(x, t, issued, assembled.value);
    } else {
      ObservationComplains(x, t, issued);
    }
  }

  // Tick t is the first that cannot be decided, and this is why.
  ghost predicate Stops(x: Setup, t: nat, error: ReplayError)
    requires x.Valid() && t < x.Ticks()
  {
    !Fits(x, t) && (forall u: nat :: u < t ==> Fits(x, u)) && Complains(x, t, error)
  }

  // A replay's actions are exactly the ones decided so, one after another, and a
  // replay fails exactly at the first tick that cannot be decided.
  lemma {:induction false} RunIsDecided(x: Setup, u: nat)
    requires x.Valid() && u <= x.Ticks()
    ensures Run(x, u).Success? <==> forall t: nat :: t < u ==> Fits(x, t)
    ensures Run(x, u).Success? ==> Decided(x, Run(x, u).value)
    ensures Run(x, u).Failure? ==> exists t: nat :: t < u && Stops(x, t, Run(x, u).error)
    decreases u
  {
    hide Shows, Fits, Complains, Tick, FeedbackWindow;
    if u == 0 {
      RunStarts(x);
    } else {
      RunIsDecided(x, u - 1);
      IterateExtends(StepOf(x), x.sem.Joints(), u - 1, u);
      if Run(x, u - 1).Success? {
        var issued := Run(x, u - 1).value;
        TickShows(x, u - 1, issued);
        RunStep(x, u - 1, issued);
        hide Run, Setup.Valid;
        if Run(x, u).Success? {
          DecidedExtends(x, issued, Run(x, u).value);
        } else {
          assert Stops(x, u - 1, Run(x, u).error);
        }
      }
    }
  }

  lemma DecidedExtends(x: Setup, issued: seq<Row>, actions: seq<Row>)
    requires x.Valid() && |actions| <= x.Ticks() && AllWidth(actions, x.sem.Joints())
    requires |actions| == |issued| + 1 && actions[..|issued|] == issued
    requires AllWidth(issued, x.sem.Joints()) && Decided(x, issued)
    requires exists obs :: Shows(x, |issued|, issued, obs) && |obs| == x.decoder.inputDim
                           && actions[|issued|] == x.decoder.run(obs)
    ensures Decided(x, actions)
  {
    hide Shows, Setup.Valid;
    forall t: nat | t < |actions|
      ensures DecidedAt(x, actions, t)
    {
      if t < |issued| {
        assert DecidedAt(x, issued, t);
        assert actions[..t] == issued[..t] && actions[t] == issued[t];
      }
    }
  }

  // No other sequence of actions is decided so.
  lemma {:induction false} DecidedUnique(x: Setup, a: seq<Row>, b: seq<Row>, t: nat)
    requires x.Valid() && |a| == |b| <= x.Ticks() && t <= |a|
    requires AllWidth(a, x.sem.Joints()) && AllWidth(b, x.sem.Joints()) && Decided(x, a) && Decided(x, b)
    ensures a[..t] == b[..t]
    decreases t
  {
    hide Shows, Setup.Valid;
    if t > 0 {
      var u := t - 1;
      DecidedUnique(x, a, b, u);
      assert DecidedAt(x, a, u) && DecidedAt(x, b, u);
      var oa :| Shows(x, u, a[..u], oa) && a[u] == x.decoder.run(oa);
      var ob :| Shows(x, u, b[..u], ob) && b[u] == x.decoder.run(ob);
      ShowsDetermines(x, u, a[..u], oa, ob);
      assert a[..t] == a[..u] + [a[u]] && b[..t] == b[..u] + [b[u]];
    }
  }

  // The whole replay: its actions, its joint targets in hardware order, and the
  // tokens it was given.
  lemma {:induction false} ReplayMeans(x: Setup)
    requires x.Valid()
    ensures Replayed(x).Success? <==> forall t: nat :: t < x.Ticks() ==> Fits(x, t)
    ensures Replayed(x).Failure? ==> exists t: nat :: t < x.Ticks() && Stops(x, t, Replayed(x).error)
    ensures Replayed(x).Success? ==>
              var r := Replayed(x).value;
              && r.tokens == x.streams.tokens
              && |r.action| == |r.qTarget| == x.Ticks()
              && AllWidth(r.action, x.sem.Joints()) && AllWidth(r.qTarget, x.sem.Joints())
              && Decided(x, r.action)
              && (forall t, h :: 0 <= t < x.Ticks() && 0 <= h < x.sem.Joints() ==>
                    0 <= x.m.perm[h] < x.sem.Joints()
                    && r.qTarget[t][h] == x.sem.defaults[h] + r.action[t][x.m.perm[h]] * x.sem.scale[h])
  {
    RunIsDecided(x, x.Ticks());
    hide Fits, Stops, Decided, Run;
    if Replayed(x).Success? {
      var r := Replayed(x).value;
      forall t, h | 0 <= t < x.Ticks() && 0 <= h < x.sem.Joints()
        ensures 0 <= x.m.perm[h] < x.sem.Joints()
        ensures r.qTarget[t][h] == x.sem.defaults[h] + r.action[t][x.m.perm[h]] * x.sem.scale[h]
      {
        assert r.qTarget[t] == TargetRow(x.sem, x.m, r.action[t]);
      }
    }
  }
}
