// The palm-to-cube distance, taken in the pelvis frame by one script and in the
// world frame by another.
module PalmDistance {
  import opened Products
  import opened Rotations
  import opened Kinematics
  import opened JointChain

  // `base_transforms`, for one row: the root's attitude and position.
  function BaseTransform(attitude: Quat, root: Vec3): Transform {
    Rigidly(Matrix(attitude), root)
  }

  // The cube centre carried into the pelvis frame.
  function InPelvis(attitude: Quat, root: Vec3, centre: Vec3): Vec3 {
    Apply(Transpose(Matrix(attitude)), Minus(centre, root))
  }

  // Squared distance from a palm given in the pelvis frame, in either frame.
  function PelvisDistance(palm: Vec3, attitude: Quat, root: Vec3, centre: Vec3): real {
    SquaredDistance(palm, InPelvis(attitude, root, centre))
  }

  function WorldDistance(palm: Vec3, attitude: Quat, root: Vec3, centre: Vec3): real {
    SquaredDistance(Place(BaseTransform(attitude, root), palm), centre)
  }

  lemma PelvisAndBack(attitude: Quat, root: Vec3, centre: Vec3)
    requires Orthonormal(Matrix(attitude))
    ensures Place(BaseTransform(attitude, root), InPelvis(attitude, root, centre)) == centre
  {
    hide Times, Matrix, Transpose, Apply, Mul;
    var m, offset := Matrix(attitude), Minus(centre, root);
    ApplyMul(m, Transpose(m), offset);
    ApplyIdentity(offset);
  }

  lemma DistancesAgree(palm: Vec3, attitude: Quat, root: Vec3, centre: Vec3)
    requires Orthonormal(Matrix(attitude))
    ensures PelvisDistance(palm, attitude, root, centre) == WorldDistance(palm, attitude, root, centre)
  {
    hide Times, Matrix, Transpose, Apply, Mul, Place, SquaredDistance, InPelvis;
    PelvisAndBack(attitude, root, centre);
    RigidKeepsDistance(BaseTransform(attitude, root), palm, InPelvis(attitude, root, centre));
  }

  // Forward kinematics from the robot's base, measured in the world, agrees with
  // forward kinematics in the pelvis frame, for every chain and joint vector.
  lemma {:induction false} TipDistancesAgree(trig: Trig, chain: seq<Joint>, q: seq<real>, attitude: Quat, root: Vec3,
                                             centre: Vec3)
    requires trig.Valid() && |q| == |chain| && Mounted(chain) && Unit(attitude)
    ensures SquaredDistance(Compose(BaseTransform(attitude, root), Tip(trig, chain, q)).t, centre)
         == PelvisDistance(Tip(trig, chain, q).t, attitude, root, centre)
  {
    hide Times, Matrix, Transpose, Apply, Mul, Compose, Tip, SquaredDistance, InPelvis;
    UnitIsOrthonormal(attitude);
    TipEquivariant(trig, chain, q, BaseTransform(attitude, root));
    DistancesAgree(Tip(trig, chain, q).t, attitude, root, centre);
  }

  ghost predicate AgreeEverywhere(attitude: Quat) {
    forall palm, root, centre ::
      PelvisDistance(palm, attitude, root, centre) == WorldDistance(palm, attitude, root, centre)
  }

  // The two scripts report the same distance for every palm, root and cube
  // exactly when the root quaternion is a unit one (or has no vector part).
  lemma {:induction false} FramesAgreeWhenUnit(attitude: Quat)
    ensures AgreeEverywhere(attitude) <==> Unit(attitude) || attitude.v == ZERO
  {
    hide Times, Matrix, Transpose, Apply, Mul, Place, SquaredDistance, InPelvis, SquaredNorm, ColumnNorm,
         PelvisDistance, WorldDistance;
    if Unit(attitude) || attitude.v == ZERO {
      OrthonormalWhenUnit(attitude);
      forall palm, root, centre
        ensures PelvisDistance(palm, attitude, root, centre) == WorldDistance(palm, attitude, root, centre)
      {
        DistancesAgree(palm, attitude, root, centre);
      }
    }
    if AgreeEverywhere(attitude) {
      AtTheRoot(attitude, Vec3(1.0, 0.0, 0.0));
      AtTheRoot(attitude, Vec3(0.0, 1.0, 0.0));
      AtTheRoot(attitude, Vec3(0.0, 0.0, 1.0));
      ColumnsAreImages(attitude);
      AxesAreUnit();
      UnitColumnsForce(attitude);
    }
  }

  lemma AxesAreUnit()
    ensures Dot(Vec3(1.0, 0.0, 0.0), Vec3(1.0, 0.0, 0.0)) == 1.0
    ensures Dot(Vec3(0.0, 1.0, 0.0), Vec3(0.0, 1.0, 0.0)) == 1.0
    ensures Dot(Vec3(0.0, 0.0, 1.0), Vec3(0.0, 0.0, 1.0)) == 1.0
  {
    hide Times;
    TimesUnit(0.0);
    TimesUnit(1.0);
  }

  // With the cube at the root, agreement says the attitude keeps the palm's
  // distance from it.
  lemma AtTheRoot(attitude: Quat, palm: Vec3)
    requires PelvisDistance(palm, attitude, ZERO, ZERO) == WorldDistance(palm, attitude, ZERO, ZERO)
    ensures Dot(palm, palm) == Dot(Apply(Matrix(attitude), palm), Apply(Matrix(attitude), palm))
  {
    hide Times, Matrix, Transpose, Apply, Dot, Minus, Plus, Mul;
    var m := Matrix(attitude);
    MinusZero(ZERO);
    MinusZero(palm);
    MinusZero(Apply(m, palm));
    ZeroBlocks(ZERO, Transpose(m));
    ZeroScale(Apply(m, palm), 0.0);
    assert InPelvis(attitude, ZERO, ZERO) == ZERO;
    assert Place(BaseTransform(attitude, ZERO), palm) == Apply(m, palm);
  }

  lemma MinusZero(p: Vec3)
    ensures Minus(p, ZERO) == p
  {
  }

  // `cube_distance`, for one row: the least squared distance over the cubes,
  // zero without cubes.  For a unit attitude it is the least world distance.
  method CubeDistance(palm: Vec3, attitude: Quat, root: Vec3, cubes: seq<Vec3>) returns (least: real)
    ensures cubes == [] ==> least == 0.0
    ensures forall k :: 0 <= k < |cubes| ==> least <= PelvisDistance(palm, attitude, root, cubes[k])
    ensures cubes != [] ==> exists k :: 0 <= k < |cubes| && least == PelvisDistance(palm, attitude, root, cubes[k])
    ensures Unit(attitude) ==> forall k :: 0 <= k < |cubes| ==> least <= WorldDistance(palm, attitude, root, cubes[k])
    ensures Unit(attitude) && cubes != [] ==>
              exists k :: 0 <= k < |cubes| && least == WorldDistance(palm, attitude, root, cubes[k])
  {
    hide Times, Matrix, PelvisDistance, WorldDistance, SquaredNorm, Orthonormal;
    least := 0.0;
    for k := 0 to |cubes|
      invariant k == 0 ==> least == 0.0
      invariant forall l :: 0 <= l < k ==> least <= PelvisDistance(palm, attitude, root, cubes[l])
      invariant k > 0 ==> exists l :: 0 <= l < k && least == PelvisDistance(palm, attitude, root, cubes[l])
    {
      var distance := PelvisDistance(palm, attitude, root, cubes[k]);
      if k == 0 || distance < least {
        least := distance;
      }
    }
    if Unit(attitude) {
      UnitIsOrthonormal(attitude);
      forall k | 0 <= k < |cubes|
        ensures PelvisDistance(palm, attitude, root, cubes[k]) == WorldDistance(palm, attitude, root, cubes[k])
      {
        DistancesAgree(palm, attitude, root, cubes[k]);
      }
    }
  }
}
