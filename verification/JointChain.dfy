// Forward kinematics along a chain of URDF joints.
module JointChain {
  import opened Outcome
  import opened Products
  import opened Rotations
  import opened Kinematics

  datatype Joint = Joint(name: string, fixed: bool, parent: string, child: string, origin: Transform, axis: Vec3)

  // The real functions the script takes from the math library, with what is
  // known about them.
  datatype Trig = Trig(cos: real -> real, sin: real -> real, norm: Vec3 -> real) {
    ghost predicate Valid() {
      && (forall q :: OnCircle(cos(q), sin(q)))
      && (forall p :: norm(p) >= 0.0 && Times(norm(p), norm(p)) == Dot(p, p))
    }
  }

  // ------------------------------------------------------------ joint steps

  // `rpy_to_matrix`: yaw about z, then pitch about y, then roll about x.
  function RpyMatrix(trig: Trig, rpy: Vec3): Mat3 {
    var (cr, sr) := (trig.cos(rpy.x), trig.sin(rpy.x));
    var (cp, sp) := (trig.cos(rpy.y), trig.sin(rpy.y));
    var (cy, sy) := (trig.cos(rpy.z), trig.sin(rpy.z));
    Mul(Mul(Mat3(Vec3(cy, -sy, 0.0), Vec3(sy, cy, 0.0), Vec3(0.0, 0.0, 1.0)),
            Mat3(Vec3(cp, 0.0, sp), Vec3(0.0, 1.0, 0.0), Vec3(-sp, 0.0, cp))),
        Mat3(Vec3(1.0, 0.0, 0.0), Vec3(0.0, cr, -sr), Vec3(0.0, sr, cr)))
  }

  // `axis_angle`: the identity for a null axis.
  function AxisAngle(trig: Trig, axis: Vec3, angle: real): Mat3
    requires trig.norm(axis) >= 0.0
  {
    var norm := trig.norm(axis);
    if norm == 0.0 then IDENTITY
    else Rodrigues(Vec3(Over(axis.x, norm), Over(axis.y, norm), Over(axis.z, norm)), trig.cos(angle), trig.sin(angle))
  }

  // The transform one joint contributes.
  function Step(trig: Trig, joint: Joint, angle: real): Transform
    requires trig.norm(joint.axis) >= 0.0
  {
    if joint.fixed then joint.origin
    else Compose(joint.origin, Rigidly(AxisAngle(trig, joint.axis, angle), ZERO))
  }

  // The three elementary matrices are rotations about the coordinate axes.
  lemma AboutX(c: real, s: real)
    requires OnCircle(c, s)
    ensures Orthonormal(Mat3(Vec3(1.0, 0.0, 0.0), Vec3(0.0, c, -s), Vec3(0.0, s, c)))
  {
    hide Times, Mul, Transpose;
    AxisProducts(c, s);
    RodriguesOrthonormal(Vec3(1.0, 0.0, 0.0), c, s);
    assert Rodrigues(Vec3(1.0, 0.0, 0.0), c, s) == Mat3(Vec3(1.0, 0.0, 0.0), Vec3(0.0, c, -s), Vec3(0.0, s, c));
  }

  lemma AboutY(c: real, s: real)
    requires OnCircle(c, s)
    ensures Orthonormal(Mat3(Vec3(c, 0.0, s), Vec3(0.0, 1.0, 0.0), Vec3(-s, 0.0, c)))
  {
    hide Times, Mul, Transpose;
    AxisProducts(c, s);
    RodriguesOrthonormal(Vec3(0.0, 1.0, 0.0), c, s);
    assert Rodrigues(Vec3(0.0, 1.0, 0.0), c, s) == Mat3(Vec3(c, 0.0, s), Vec3(0.0, 1.0, 0.0), Vec3(-s, 0.0, c));
  }

  lemma AboutZ(c: real, s: real)
    requires OnCircle(c, s)
    ensures Orthonormal(Mat3(Vec3(c, -s, 0.0), Vec3(s, c, 0.0), Vec3(0.0, 0.0, 1.0)))
  {
    hide Times, Mul, Transpose;
    AxisProducts(c, s);
    RodriguesOrthonormal(Vec3(0.0, 0.0, 1.0), c, s);
    assert Rodrigues(Vec3(0.0, 0.0, 1.0), c, s) == Mat3(Vec3(c, -s, 0.0), Vec3(s, c, 0.0), Vec3(0.0, 0.0, 1.0));
  }

  lemma AxisProducts(c: real, s: real)
    ensures Times(1.0, 1.0) == 1.0 && Times(0.0, 0.0) == Times(1.0, 0.0) == Times(0.0, 1.0) == 0.0
    ensures Times(1.0, 1.0 - c) == 1.0 - c && Times(0.0, 1.0 - c) == 0.0
    ensures Times(1.0, s) == s && Times(0.0, s) == 0.0
  {
    hide Times;
    TimesUnit(0.0);
    TimesUnit(1.0);
    TimesUnit(1.0 - c);
    TimesUnit(s);
  }

  lemma {:induction false} RpyOrthonormal(trig: Trig, rpy: Vec3)
    requires trig.Valid()
    ensures Orthonormal(RpyMatrix(trig, rpy))
  {
    hide Times, Mul, Transpose, Orthonormal, OnCircle;
    var (cr, sr) := (trig.cos(rpy.x), trig.sin(rpy.x));
    var (cp, sp) := (trig.cos(rpy.y), trig.sin(rpy.y));
    var (cy, sy) := (trig.cos(rpy.z), trig.sin(rpy.z));
    AboutX(cr, sr);
    AboutY(cp, sp);
    AboutZ(cy, sy);
    var yaw := Mat3(Vec3(cy, -sy, 0.0), Vec3(sy, cy, 0.0), Vec3(0.0, 0.0, 1.0));
    var pitch := Mat3(Vec3(cp, 0.0, sp), Vec3(0.0, 1.0, 0.0), Vec3(-sp, 0.0, cp));
    OrthonormalMul(yaw, pitch);
    OrthonormalMul(Mul(yaw, pitch), Mat3(Vec3(1.0, 0.0, 0.0), Vec3(0.0, cr, -sr), Vec3(0.0, sr, cr)));
  }

  lemma {:induction false} AxisAngleOrthonormal(trig: Trig, axis: Vec3, angle: real)
    requires trig.Valid()
    ensures Orthonormal(AxisAngle(trig, axis, angle))
  {
    hide Times, Over, Rodrigues, OnCircle, Dot;
    var norm := trig.norm(axis);
    if norm == 0.0 {
      ZeroVectorIsIdentity(Quat(0.0, ZERO));
    } else {
      UnitAxis(axis, norm);
      RodriguesOrthonormal(Vec3(Over(axis.x, norm), Over(axis.y, norm), Over(axis.z, norm)),
                           trig.cos(angle), trig.sin(angle));
    }
  }

  lemma UnitAxis(axis: Vec3, norm: real)
    requires norm > 0.0 && Times(norm, norm) == Dot(axis, axis)
    ensures var n := Vec3(Over(axis.x, norm), Over(axis.y, norm), Over(axis.z, norm)); Dot(n, n) == 1.0
  {
    hide Times, Over;
    TimesUnit(0.0);
    NormalisedIsUnit(Quat(0.0, axis), norm);
    OverScales(0.0, norm);
    TimesUnit(Over(1.0, norm));
  }

  // What the file says about one joint; a missing origin or axis has a default.
  datatype Element = Element(name: string, kind: string, parent: string, child: string,
                             xyz: Option<Vec3>, rpy: Option<Vec3>, axis: Option<Vec3>)

  function JointOf(trig: Trig, e: Element): Joint {
    var xyz := if e.xyz.Some? then e.xyz.value else ZERO;
    var rpy := if e.rpy.Some? then e.rpy.value else ZERO;
    var axis := if e.axis.Some? then e.axis.value else Vec3(0.0, 0.0, 1.0);
    Joint(e.name, e.kind == "fixed", e.parent, e.child, Rigidly(RpyMatrix(trig, rpy), xyz), axis)
  }

  // -------------------------------------------------------- forward kinematics

  ghost predicate Mounted(chain: seq<Joint>) {
    forall i :: 0 <= i < |chain| ==> Rigid(chain[i].origin)
  }

  // Joints read from a file are mounted rigidly.
  lemma {:induction false} ReadJointsAreMounted(trig: Trig, elements: seq<Element>, chain: seq<Joint>)
    requires trig.Valid()
    requires forall i :: 0 <= i < |chain| ==> exists e :: e in elements && chain[i] == JointOf(trig, e)
    ensures Mounted(chain)
  {
    hide RpyMatrix, Orthonormal;
    forall i | 0 <= i < |chain|
      ensures Rigid(chain[i].origin)
    {
      var e :| e in elements && chain[i] == JointOf(trig, e);
      RpyOrthonormal(trig, if e.rpy.Some? then e.rpy.value else ZERO);
    }
  }

  // The ordered product of the chain's steps.
  function Tip(trig: Trig, chain: seq<Joint>, q: seq<real>): Transform
    requires trig.Valid() && |q| == |chain|
  {
    if chain == [] then EYE
    else
      var n := |chain| - 1;
      Compose(Tip(trig, chain[..n], q[..n]), Step(trig, chain[n], q[n]))
  }

  lemma {:induction false} StepRigid(trig: Trig, joint: Joint, angle: real)
    requires trig.Valid() && Rigid(joint.origin)
    ensures Rigid(Step(trig, joint, angle))
  {
    AxisAngleOrthonormal(trig, joint.axis, angle);
    if !joint.fixed {
      RigidCompose(joint.origin, Rigidly(AxisAngle(trig, joint.axis, angle), ZERO));
    }
  }

  // For every chain and every joint vector the tip is a rotation, a
  // translation, and the row (0, 0, 0, 1).
  lemma {:induction false} TipRigid(trig: Trig, chain: seq<Joint>, q: seq<real>)
    requires trig.Valid() && |q| == |chain| && Mounted(chain)
    ensures Rigid(Tip(trig, chain, q))
  {
    hide Times, Compose, Step, Mul;
    if chain == [] {
      ZeroVectorIsIdentity(Quat(0.0, ZERO));
    } else {
      var n := |chain| - 1;
      TipRigid(trig, chain[..n], q[..n]);
      StepRigid(trig, chain[n], q[n]);
      RigidCompose(Tip(trig, chain[..n], q[..n]), Step(trig, chain[n], q[n]));
    }
  }

  // `fk_chain`, for one row of joint values.
  method FkChain(trig: Trig, chain: seq<Joint>, q: seq<real>, base: Option<Transform>) returns (current: Transform)
    requires trig.Valid() && |q| == |chain| && Mounted(chain)
    ensures base.None? ==> current == Tip(trig, chain, q)
    ensures base.Some? ==> current == Compose(base.value, Tip(trig, chain, q))
    ensures base.None? || Rigid(base.value) ==> Rigid(current)
  {
    hide Times, Compose, Step, AxisAngle, Mul;
    current := EYE;
    ZeroVectorIsIdentity(Quat(0.0, ZERO));
    if base.Some? {
      current := base.value;
    }
    ghost var start := current;
    ComposeEye(start);
    for index := 0 to |chain|
      invariant current == Compose(start, Tip(trig, chain[..index], q[..index]))
    {
      var joint := chain[index];
      var step := joint.origin;
      if !joint.fixed {
        step := Compose(step, Rigidly(AxisAngle(trig, joint.axis, q[index]), ZERO));
      }
      assert step == Step(trig, joint, q[index]) by {
        StepIs(trig, joint, q[index]);
      }
      TipGrows(trig, chain, q, index);
      TipRigid(trig, chain[..index], q[..index]);
      StepRigid(trig, joint, q[index]);
      ComposeAssociates(start, Tip(trig, chain[..index], q[..index]), step);
      current := Compose(current, step);
    }
    assert chain[..|chain|] == chain && q[..|chain|] == q;
    TipRigid(trig, chain, q);
    if Rigid(start) {
      RigidCompose(start, Tip(trig, chain, q));
    }
    ComposeEye(Tip(trig, chain, q));
  }

  lemma StepIs(trig: Trig, joint: Joint, angle: real)
    requires trig.Valid()
    ensures Step(trig, joint, angle)
         == if joint.fixed then joint.origin
            else Compose(joint.origin, Rigidly(AxisAngle(trig, joint.axis, angle), ZERO))
  {
  }

  lemma TipGrows(trig: Trig, chain: seq<Joint>, q: seq<real>, index: nat)
    requires trig.Valid() && |q| == |chain| && index < |chain|
    ensures Tip(trig, chain[..index + 1], q[..index + 1])
         == Compose(Tip(trig, chain[..index], q[..index]), Step(trig, chain[index], q[index]))
  {
    hide Compose, Step;
    assert chain[..index + 1][..index] == chain[..index] && q[..index + 1][..index] == q[..index];
  }

  // The base acts from outside: moving the robot moves the tip with it.
  lemma {:induction false} TipEquivariant(trig: Trig, chain: seq<Joint>, q: seq<real>, base: Transform)
    requires trig.Valid() && |q| == |chain| && Mounted(chain)
    ensures Compose(base, Tip(trig, chain, q)).t == Place(base, Tip(trig, chain, q).t)
  {
    hide Compose, Times, Tip, Place;
    TipRigid(trig, chain, q);
    ComposeAffine(base, Tip(trig, chain, q));
  }
}
