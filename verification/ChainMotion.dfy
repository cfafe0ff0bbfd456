// What a chain does to a point: each joint turns it about its unit axis and then
// places it in the parent's frame.
module ChainMotion {
  import opened Outcome
  import opened Products
  import opened Rotations
  import opened Kinematics
  import opened JointChain

  // r is p turned about the unit axis n, by the angle with this cosine and sine:
  // c p + s (n x p) + (1 - c)(n . p) n.
  ghost predicate Turned(n: Vec3, c: real, s: real, p: Vec3, r: Vec3) {
    var along := Times(n.x, p.x) + Times(n.y, p.y) + Times(n.z, p.z);
    var k := Times(1.0 - c, along);
    && r.x == Times(c, p.x) + Times(s, Times(n.y, p.z) - Times(n.z, p.y)) + Times(k, n.x)
    && r.y == Times(c, p.y) + Times(s, Times(n.z, p.x) - Times(n.x, p.z)) + Times(k, n.y)
    && r.z == Times(c, p.z) + Times(s, Times(n.x, p.y) - Times(n.y, p.x)) + Times(k, n.z)
  }

  // n points along the axis and has length one.
  ghost predicate UnitAlong(n: Vec3, axis: Vec3) {
    && Times(n.x, n.x) + Times(n.y, n.y) + Times(n.z, n.z) == 1.0
    && exists length :: length > 0.0 && axis == Scale(length, n)
  }

  // A fixed joint, or one with a null axis, leaves the point; the others turn it.
  // The origin then places it.
  ghost predicate Moves(trig: Trig, joint: Joint, angle: real, p: Vec3, r: Vec3) {
    if joint.fixed || joint.axis == ZERO then r == Place(joint.origin, p)
    else exists n, turned :: UnitAlong(n, joint.axis) && Turned(n, trig.cos(angle), trig.sin(angle), p, turned)
                             && r == Place(joint.origin, turned)
  }

  // A point given in the tip's frame, frame by frame down to the root's.
  ghost predicate Carries(trig: Trig, chain: seq<Joint>, q: seq<real>, path: seq<Vec3>) {
    |q| == |chain| && |path| == |chain| + 1
    && forall i :: 0 <= i < |chain| ==> Moves(trig, chain[i], q[i], path[i + 1], path[i])
  }

  // ---------------------------------------------------------------- one joint

  lemma SwingTurns(n: Vec3, c: real, s: real, p: Vec3)
    ensures Turned(n, c, s, p, Swing(n, c, s, p))
  {
    hide Times;
  }

  lemma NullAxis(trig: Trig, axis: Vec3)
    requires trig.Valid()
    ensures trig.norm(axis) == 0.0 <==> axis == ZERO
  {
    hide Times;
    var norm := trig.norm(axis);
    assert Times(norm, norm) == Dot(axis, axis);
    SquareSign(axis.x);
    SquareSign(axis.y);
    SquareSign(axis.z);
    SquareSign(norm);
  }

  lemma UnitExists(trig: Trig, axis: Vec3)
    requires trig.Valid() && trig.norm(axis) != 0.0
    ensures var norm := trig.norm(axis);
            UnitAlong(Vec3(Over(axis.x, norm), Over(axis.y, norm), Over(axis.z, norm)), axis)
  {
    var norm := trig.norm(axis);
    var n := Vec3(Over(axis.x, norm), Over(axis.y, norm), Over(axis.z, norm));
    UnitAxis(axis, norm);
    hide Times, Over;
    ScaledUnit(axis.x, norm);
    ScaledUnit(axis.y, norm);
    ScaledUnit(axis.z, norm);
    assert axis == Scale(norm, n);
  }

  lemma ScaledUnit(a: real, norm: real)
    requires norm != 0.0
    ensures Times(norm, Over(a, norm)) == a
  {
    hide Times, Over;
    OverScales(a, norm);
    TimesCommutes(norm, Over(a, norm));
  }

  // A joint moves points so.
  lemma {:induction false} StepMoves(trig: Trig, joint: Joint, angle: real, p: Vec3)
    requires trig.Valid()
    ensures Moves(trig, joint, angle, p, Place(Step(trig, joint, angle), p))
  {
    NullAxis(trig, joint.axis);
    hide Place, Compose, Rodrigues, Swing, UnitAlong, Turned, Dot, Times, Over, OnCircle;
    if joint.fixed {
    } else if joint.axis == ZERO {
      ComposeEye(joint.origin);
    } else {
      var norm, c, s := trig.norm(joint.axis), trig.cos(angle), trig.sin(angle);
      var n := Vec3(Over(joint.axis.x, norm), Over(joint.axis.y, norm), Over(joint.axis.z, norm));
      UnitExists(trig, joint.axis);
      SwingTurns(n, c, s, p);
      RodriguesSwings(n, c, s, p);
      PlaceCompose(joint.origin, Rigidly(Rodrigues(n, c, s), ZERO), p);
      PlaceTurn(Rodrigues(n, c, s), p);
      assert Turned(n, c, s, p, Swing(n, c, s, p));
    }
  }

  lemma PlaceTurn(m: Mat3, p: Vec3)
    ensures Place(Rigidly(m, ZERO), p) == Apply(m, p)
  {
    hide Apply;
    ZeroScale(Apply(m, p), 0.0);
  }

  // One unit vector lies along an axis, and it turns a point to one place.
  lemma {:induction false} UnitAlongUnique(m: Vec3, n: Vec3, axis: Vec3)
    requires UnitAlong(m, axis) && UnitAlong(n, axis)
    ensures m == n
  {
    var a :| a > 0.0 && axis == Scale(a, m);
    var b :| b > 0.0 && axis == Scale(b, n);
    assert Dot(m, m) == 1.0 && Dot(n, n) == 1.0;
    SquareOfScale(a, m);
    SquareOfScale(b, n);
    hide Times, Dot;
    PositiveRoots(a, b);
    TimesCancels(a, m.x, n.x);
    TimesCancels(a, m.y, n.y);
    TimesCancels(a, m.z, n.z);
  }

  lemma SquareOfScale(k: real, n: Vec3)
    requires Dot(n, n) == 1.0
    ensures Dot(Scale(k, n), Scale(k, n)) == Times(k, k)
  {
    hide Times;
    TimesInterchange(k, n.x, k, n.x);
    TimesInterchange(k, n.y, k, n.y);
    TimesInterchange(k, n.z, k, n.z);
    TimesSum(Times(n.x, n.x), Times(n.y, n.y), Times(n.z, n.z), Times(k, k));
    TimesUnit(Times(k, k));
  }

  lemma PositiveRoots(a: real, b: real)
    requires a > 0.0 && b > 0.0 && Times(a, a) == Times(b, b)
    ensures a == b
  {
    hide Times;
    TimesDistributes(a + b, a, b);
    TimesCommutes(a + b, a);
    TimesCommutes(a + b, b);
    TimesDistributes(a, a, b);
    TimesDistributes(b, a, b);
    TimesCommutes(a, b);
    TimesPositive(a + b, a - b);
  }

  // ----------------------------------------------------------------- the chain

  // The tip carries every point along the chain, joint by joint.
  lemma {:induction false} TipCarries(trig: Trig, chain: seq<Joint>, q: seq<real>, p: Vec3)
    requires trig.Valid() && |q| == |chain| && Mounted(chain)
    ensures exists path :: Carries(trig, chain, q, path) && path[|chain|] == p
                           && path[0] == Place(Tip(trig, chain, q), p)
    decreases |chain|
  {
    hide Place, Compose, Step, Moves;
    if chain == [] {
      PlaceEye(p);
      assert Carries(trig, chain, q, [p]);
    } else {
      var n := |chain| - 1;
      var front, angles, last := chain[..n], q[..n], Step(trig, chain[n], q[n]);
      var at := Place(last, p);
      StepRigid(trig, chain[n], q[n]);
      PlaceCompose(Tip(trig, front, angles), last, p);
      StepMoves(trig, chain[n], q[n], p);
      TipCarries(trig, front, angles, at);
      var path :| Carries(trig, front, angles, path) && path[n] == at && path[0] == Place(Tip(trig, front, angles), at);
      PathGrows(trig, chain, q, path, p);
    }
  }

  lemma PathGrows(trig: Trig, chain: seq<Joint>, q: seq<real>, path: seq<Vec3>, p: Vec3)
    requires |q| == |chain| > 0 && Carries(trig, chain[..|chain| - 1], q[..|chain| - 1], path)
    requires Moves(trig, chain[|chain| - 1], q[|chain| - 1], p, path[|chain| - 1])
    ensures Carries(trig, chain, q, path + [p])
  {
    hide Moves;
    var n, longer := |chain| - 1, path + [p];
    forall i | 0 <= i < |chain|
      ensures Moves(trig, chain[i], q[i], longer[i + 1], longer[i])
    {
      if i < n {
        assert chain[..n][i] == chain[i] && q[..n][i] == q[i];
        assert longer[i + 1] == path[i + 1] && longer[i] == path[i];
      }
    }
  }

  lemma PlaceEye(p: Vec3)
    ensures Place(EYE, p) == p
  {
    hide Apply;
    ApplyIdentity(p);
  }

  // Only one path ends at p.
  lemma {:induction false} PathUnique(trig: Trig, chain: seq<Joint>, q: seq<real>, a: seq<Vec3>, b: seq<Vec3>, i: nat)
    requires Carries(trig, chain, q, a) && Carries(trig, chain, q, b) && a[|chain|] == b[|chain|] && i <= |chain|
    ensures a[i] == b[i]
    decreases |chain| - i
  {
    if i < |chain| {
      PathUnique(trig, chain, q, a, b, i + 1);
      MovesUnique(trig, chain[i], q[i], a[i + 1], a[i], b[i]);
    }
  }

  lemma MovesUnique(trig: Trig, joint: Joint, angle: real, p: Vec3, a: Vec3, b: Vec3)
    requires Moves(trig, joint, angle, p, a) && Moves(trig, joint, angle, p, b)
    ensures a == b
  {
    hide UnitAlong, Turned, Place;
    if !(joint.fixed || joint.axis == ZERO) {
      var m, u :| UnitAlong(m, joint.axis) && Turned(m, trig.cos(angle), trig.sin(angle), p, u)
                  && a == Place(joint.origin, u);
      var n, v :| UnitAlong(n, joint.axis) && Turned(n, trig.cos(angle), trig.sin(angle), p, v)
                  && b == Place(joint.origin, v);
      UnitAlongUnique(m, n, joint.axis);
      TurnedUnique(m, trig.cos(angle), trig.sin(angle), p, u, v);
    }
  }

  lemma TurnedUnique(n: Vec3, c: real, s: real, p: Vec3, u: Vec3, v: Vec3)
    requires Turned(n, c, s, p, u) && Turned(n, c, s, p, v)
    ensures u == v
  {
    hide Times;
  }

  // --------------------------------------------------------- the neutral chain

  // A joint that adds nothing to its origin.
  ghost predicate Neutral(trig: Trig, joint: Joint, angle: real) {
    joint.fixed || joint.axis == ZERO || (trig.cos(angle) == 1.0 && trig.sin(angle) == 0.0)
  }

  function Origins(chain: seq<Joint>): Transform {
    if chain == [] then EYE
    else Compose(Origins(chain[..|chain| - 1]), chain[|chain| - 1].origin)
  }

  lemma {:induction false} NeutralStep(trig: Trig, joint: Joint, angle: real)
    requires trig.Valid() && Neutral(trig, joint, angle)
    ensures Step(trig, joint, angle) == joint.origin
  {
    NullAxis(trig, joint.axis);
    hide Compose, Rodrigues, Times, Over;
    ComposeEye(joint.origin);
    if !joint.fixed && joint.axis != ZERO {
      var norm := trig.norm(joint.axis);
      NoTurn(Vec3(Over(joint.axis.x, norm), Over(joint.axis.y, norm), Over(joint.axis.z, norm)));
    }
  }

  lemma NoTurn(n: Vec3)
    ensures Rodrigues(n, 1.0, 0.0) == IDENTITY
  {
    hide Times;
    TimesUnit(n.x);
    TimesUnit(n.y);
    TimesUnit(n.z);
    NoProducts(n.x, n);
    NoProducts(n.y, n);
    NoProducts(n.z, n);
  }

  lemma NoProducts(a: real, n: Vec3)
    ensures Times(Times(a, n.x), 1.0 - 1.0) == Times(Times(a, n.y), 1.0 - 1.0) == Times(Times(a, n.z), 1.0 - 1.0) == 0.0
  {
    hide Times;
    TimesUnit(Times(a, n.x));
    TimesUnit(Times(a, n.y));
    TimesUnit(Times(a, n.z));
  }

  // With every joint neutral the chain is the ordered product of its origins.
  lemma {:induction false} NeutralTip(trig: Trig, chain: seq<Joint>, q: seq<real>)
    requires trig.Valid() && |q| == |chain|
    requires forall i :: 0 <= i < |chain| ==> Neutral(trig, chain[i], q[i])
    ensures Tip(trig, chain, q) == Origins(chain)
  {
    hide Compose, Step, Neutral;
    if chain != [] {
      var n := |chain| - 1;
      NeutralTip(trig, chain[..n], q[..n]);
      NeutralStep(trig, chain[n], q[n]);
    }
  }

  // ------------------------------------------------------------------ mounting

  // Each of the three turns, component by component.
  ghost function RollBy(c: real, s: real, p: Vec3): Vec3 {
    Vec3(p.x, Times(c, p.y) - Times(s, p.z), Times(s, p.y) + Times(c, p.z))
  }

  ghost function PitchBy(c: real, s: real, p: Vec3): Vec3 {
    Vec3(Times(c, p.x) + Times(s, p.z), p.y, Times(c, p.z) - Times(s, p.x))
  }

  ghost function YawBy(c: real, s: real, p: Vec3): Vec3 {
    Vec3(Times(c, p.x) - Times(s, p.y), Times(s, p.x) + Times(c, p.y), p.z)
  }

  // Roll about x, then pitch about y, then yaw about z.
  ghost function RolledPitchedYawed(trig: Trig, rpy: Vec3, p: Vec3): Vec3 {
    YawBy(trig.cos(rpy.z), trig.sin(rpy.z),
           PitchBy(trig.cos(rpy.y), trig.sin(rpy.y),
                  RollBy(trig.cos(rpy.x), trig.sin(rpy.x), p)))
  }

  lemma {:induction false} RpyTurns(trig: Trig, rpy: Vec3, p: Vec3)
    ensures Apply(RpyMatrix(trig, rpy), p) == RolledPitchedYawed(trig, rpy, p)
  {
    var (cr, sr) := (trig.cos(rpy.x), trig.sin(rpy.x));
    var (cp, sp) := (trig.cos(rpy.y), trig.sin(rpy.y));
    var (cy, sy) := (trig.cos(rpy.z), trig.sin(rpy.z));
    var yaw := Mat3(Vec3(cy, -sy, 0.0), Vec3(sy, cy, 0.0), Vec3(0.0, 0.0, 1.0));
    var pitch := Mat3(Vec3(cp, 0.0, sp), Vec3(0.0, 1.0, 0.0), Vec3(-sp, 0.0, cp));
    var roll := Mat3(Vec3(1.0, 0.0, 0.0), Vec3(0.0, cr, -sr), Vec3(0.0, sr, cr));
    hide Mul, Apply, Times, RollBy, PitchBy, YawBy;
    ApplyMul(Mul(yaw, pitch), roll, p);
    ApplyMul(yaw, pitch, Apply(roll, p));
    AboutAxes(cr, sr, p);
    AboutAxes(cp, sp, Apply(roll, p));
    AboutAxes(cy, sy, Apply(pitch, Apply(roll, p)));
  }

  // The three elementary matrices, component by component.
  lemma AboutAxes(c: real, s: real, p: Vec3)
    ensures Apply(Mat3(Vec3(1.0, 0.0, 0.0), Vec3(0.0, c, -s), Vec3(0.0, s, c)), p)
         == RollBy(c, s, p)
    ensures Apply(Mat3(Vec3(c, 0.0, s), Vec3(0.0, 1.0, 0.0), Vec3(-s, 0.0, c)), p)
         == PitchBy(c, s, p)
    ensures Apply(Mat3(Vec3(c, -s, 0.0), Vec3(s, c, 0.0), Vec3(0.0, 0.0, 1.0)), p)
         == YawBy(c, s, p)
  {
    hide Times;
    TimesUnit(p.x);
    TimesUnit(p.y);
    TimesUnit(p.z);
    TimesDifference(0.0, s, p.x);
    TimesDifference(0.0, s, p.y);
    TimesDifference(0.0, s, p.z);
  }

  // Absent angles and offsets are zero, an absent axis is z.
  ghost function OrElse(v: Option<Vec3>, default: Vec3): Vec3 {
    match v
    case Some(value) => value
    case None => default
  }

  // A joint read from a file: its origin turns by the element's angles and then
  // shifts by its offset.
  lemma {:induction false} ReadJoint(trig: Trig, e: Element, p: Vec3)
    ensures var joint := JointOf(trig, e);
            && joint.name == e.name && joint.parent == e.parent && joint.child == e.child
            && (joint.fixed <==> e.kind == "fixed")
            && joint.axis == OrElse(e.axis, Vec3(0.0, 0.0, 1.0))
    ensures var turned := RolledPitchedYawed(trig, OrElse(e.rpy, Vec3(0.0, 0.0, 0.0)), p);
            var offset := OrElse(e.xyz, Vec3(0.0, 0.0, 0.0));
            Place(JointOf(trig, e).origin, p) == Vec3(turned.x + offset.x, turned.y + offset.y, turned.z + offset.z)
  {
    hide RpyMatrix, Apply, RolledPitchedYawed;
    var rpy := OrElse(e.rpy, Vec3(0.0, 0.0, 0.0));
    RpyTurns(trig, rpy, p);
  }
}
