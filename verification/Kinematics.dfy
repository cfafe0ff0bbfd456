// Homogeneous transforms as 4x4 matrices in blocks, and rotations about an axis.
module Kinematics {
  import opened Products
  import opened Rotations

  // A 4x4 matrix in blocks: the upper rows (r | t), the last row (bottom | w).
  datatype Transform = Transform(r: Mat3, t: Vec3, bottom: Vec3, w: real)

  const EYE := Transform(IDENTITY, ZERO, ZERO, 1.0)

  function Outer(p: Vec3, q: Vec3): Mat3 {
    Mat3(Scale(p.x, q), Scale(p.y, q), Scale(p.z, q))
  }

  // The 4x4 product.
  function Compose(f: Transform, g: Transform): Transform {
    Transform(Add(Mul(f.r, g.r), Outer(f.t, g.bottom)),
              Plus(Apply(f.r, g.t), Scale(g.w, f.t)),
              Plus(RowTimes(f.bottom, g.r), Scale(f.w, g.bottom)),
              Dot(f.bottom, g.t) + Times(f.w, g.w))
  }

  // A rotation block, and (0, 0, 0, 1) below it.
  ghost predicate Rigid(f: Transform) {
    Orthonormal(f.r) && f.bottom == ZERO && f.w == 1.0
  }

  // Only the last row (0, 0, 0, 1) is asked for.
  ghost predicate Affine(f: Transform) {
    f.bottom == ZERO && f.w == 1.0
  }

  function Rigidly(r: Mat3, t: Vec3): Transform {
    Transform(r, t, ZERO, 1.0)
  }

  // Where the transform takes a point.
  function Place(f: Transform, p: Vec3): Vec3 {
    Plus(Apply(f.r, p), f.t)
  }

  lemma ZeroScale(p: Vec3, k: real)
    ensures Scale(0.0, p) == ZERO && Scale(k, ZERO) == ZERO && Scale(1.0, p) == p
    ensures Dot(ZERO, p) == 0.0 && Dot(p, ZERO) == 0.0
    ensures Plus(p, ZERO) == p && Plus(ZERO, p) == p
  {
    hide Times;
    TimesUnit(p.x);
    TimesUnit(p.y);
    TimesUnit(p.z);
    TimesUnit(k);
  }

  lemma ZeroBlocks(p: Vec3, m: Mat3)
    ensures Outer(p, ZERO) == Mat3(ZERO, ZERO, ZERO)
    ensures Add(m, Mat3(ZERO, ZERO, ZERO)) == m
    ensures RowTimes(ZERO, m) == ZERO && Apply(m, ZERO) == ZERO
  {
    hide Times;
    ZeroScale(p, p.x);
    ZeroScale(p, p.y);
    ZeroScale(p, p.z);
    ZeroScale(m.a, 0.0);
    ZeroScale(m.b, 0.0);
    ZeroScale(m.c, 0.0);
    ZeroScale(Vec3(m.a.x, m.b.x, m.c.x), 0.0);
    ZeroScale(Vec3(m.a.y, m.b.y, m.c.y), 0.0);
    ZeroScale(Vec3(m.a.z, m.b.z, m.c.z), 0.0);
  }

  // With an affine right factor the 4x4 product loses its cross terms.
  lemma ComposeAffine(f: Transform, g: Transform)
    requires Affine(g)
    ensures Compose(f, g)
         == Transform(Mul(f.r, g.r), Place(f, g.t), RowTimes(f.bottom, g.r), Dot(f.bottom, g.t) + f.w)
  {
    hide Times, Mul, Apply, RowTimes, Outer, Add, Scale, Dot, Plus;
    ZeroBlocks(f.t, Mul(f.r, g.r));
    ZeroScale(f.t, 1.0);
    ZeroScale(g.t, f.w);
    ZeroScale(RowTimes(f.bottom, g.r), 1.0);
    TimesUnit(f.w);
  }

  // On rigid transforms the 4x4 product is the usual composition.
  lemma ComposeRigid(f: Transform, g: Transform)
    requires Affine(f) && Affine(g)
    ensures Compose(f, g) == Rigidly(Mul(f.r, g.r), Place(f, g.t))
  {
    hide Times, Mul, Apply, RowTimes, Outer, Add, Scale, Dot, Plus;
    ZeroBlocks(f.t, Mul(f.r, g.r));
    ZeroBlocks(f.t, g.r);
    ZeroScale(f.t, 1.0);
    ZeroScale(g.t, 1.0);
    ZeroScale(ZERO, 1.0);
    TimesUnit(1.0);
  }

  lemma RigidCompose(f: Transform, g: Transform)
    requires Rigid(f) && Rigid(g)
    ensures Rigid(Compose(f, g))
  {
    ComposeRigid(f, g);
    OrthonormalMul(f.r, g.r);
  }

  lemma ApplyPlus(m: Mat3, p: Vec3, q: Vec3)
    ensures Apply(m, Plus(p, q)) == Plus(Apply(m, p), Apply(m, q))
  {
    hide Times;
    DotPlus(m.a, p, q);
    DotPlus(m.b, p, q);
    DotPlus(m.c, p, q);
  }

  lemma DotPlus(r: Vec3, p: Vec3, q: Vec3)
    ensures Dot(r, Plus(p, q)) == Dot(r, p) + Dot(r, q)
  {
    hide Times;
    TimesDistributes(r.x, p.x, q.x);
    TimesDistributes(r.y, p.y, q.y);
    TimesDistributes(r.z, p.z, q.z);
  }

  lemma PlaceCompose(f: Transform, g: Transform, p: Vec3)
    requires Affine(g)
    ensures Place(Compose(f, g), p) == Place(f, Place(g, p))
  {
    hide Times, Mul, Apply, Compose, RowTimes;
    ComposeAffine(f, g);
    ApplyMul(f.r, g.r, p);
    ApplyPlus(f.r, Apply(g.r, p), g.t);
  }

  // The left factor may be any 4x4 matrix.
  lemma ComposeAssociates(f: Transform, g: Transform, h: Transform)
    requires Affine(g) && Affine(h)
    ensures Compose(Compose(f, g), h) == Compose(f, Compose(g, h))
  {
    PlaceCompose(f, g, h.t);
    hide Times, Mul, Apply, Compose, RowTimes, Dot, Plus;
    ComposeAffine(f, g);
    ComposeRigid(g, h);
    ComposeAffine(Compose(f, g), h);
    ComposeAffine(f, Compose(g, h));
    MulAssociates(f.r, g.r, h.r);
    RowTimesMul(f.bottom, g.r, h.r);
    DotRow(f.bottom, g.r, h.t);
    DotPlus(f.bottom, Apply(g.r, h.t), g.t);
  }

  lemma ComposeEye(f: Transform)
    ensures Compose(f, EYE) == f
    ensures Affine(f) ==> Compose(EYE, f) == f
  {
    hide Times, Mul, Apply, Plus, Compose, RowTimes, Dot;
    ComposeAffine(f, EYE);
    MulIdentity(f.r);
    ApplyIdentity(f.t);
    ApplyIdentity(f.bottom);
    ZeroBlocks(f.t, f.r);
    ZeroScale(f.t, 1.0);
    ZeroScale(f.bottom, 1.0);
    if Affine(f) {
      ComposeRigid(EYE, f);
    }
  }

  // Rigid transforms keep distances.
  lemma {:induction false} RigidKeepsDistance(f: Transform, p: Vec3, q: Vec3)
    requires Rigid(f)
    ensures SquaredDistance(Place(f, p), Place(f, q)) == SquaredDistance(p, q)
  {
    hide Times, Dot, Apply;
    var m := Minus(p, q);
    ApplyMinus(f.r, p, q);
    assert Minus(Place(f, p), Place(f, q)) == Apply(f.r, m);
    OrthonormalKeepsDot(f.r, m, m);
  }

  // ------------------------------------------------------ elementary rotations

  // `axis_angle`'s matrix for a unit axis and the (cos, sin) of the angle.
  function Rodrigues(n: Vec3, c: real, s: real): Mat3 {
    var k := 1.0 - c;
    Mat3(Vec3(c + Times(Times(n.x, n.x), k), Times(Times(n.x, n.y), k) - Times(n.z, s),
              Times(Times(n.x, n.z), k) + Times(n.y, s)),
         Vec3(Times(Times(n.y, n.x), k) + Times(n.z, s), c + Times(Times(n.y, n.y), k),
              Times(Times(n.y, n.z), k) - Times(n.x, s)),
         Vec3(Times(Times(n.z, n.x), k) - Times(n.y, s), Times(Times(n.z, n.y), k) + Times(n.x, s),
              c + Times(Times(n.z, n.z), k)))
  }

  ghost predicate OnCircle(c: real, s: real) {
    Times(c, c) + Times(s, s) == 1.0
  }

  // c p + s (n x p) + (1 - c) (n . p) n
  function Swing(n: Vec3, c: real, s: real, p: Vec3): Vec3 {
    Plus(Plus(Scale(c, p), Scale(s, Cross(n, p))), Scale(Times(1.0 - c, Dot(n, p)), n))
  }

  // One component; the other two are this with the axes turned.
  function SwingX(x: real, y: real, z: real, c: real, s: real, a: real, b: real, e: real): real {
    Times(c, a) + Times(s, Det2(y, z, b, e)) + Times(Times(1.0 - c, Times(x, a) + Times(y, b) + Times(z, e)), x)
  }

  function RodriguesX(x: real, y: real, z: real, c: real, s: real, a: real, b: real, e: real): real {
    var k := 1.0 - c;
    Times(c + Times(Times(x, x), k), a) + Times(Times(Times(x, y), k) - Times(z, s), b)
    + Times(Times(Times(x, z), k) + Times(y, s), e)
  }

  lemma SwingXIsRodriguesX(x: real, y: real, z: real, c: real, s: real, a: real, b: real, e: real)
    ensures SwingX(x, y, z, c, s, a, b, e) == RodriguesX(x, y, z, c, s, a, b, e)
  {
    hide Times;
    var k := 1.0 - c;
    TimesDifference(Times(y, e), Times(z, b), s);
    Brought(s, y, e);
    Brought(s, z, b);
    TimesSum(Times(x, a), Times(y, b), Times(z, e), k);
    TimesSum(Times(k, Times(x, a)), Times(k, Times(y, b)), Times(k, Times(z, e)), x);
    Moved(x, x, k, a);
    Moved(x, y, k, b);
    Moved(x, z, k, e);
    TimesSum(c, Times(Times(x, x), k), 0.0, a);
    TimesDifference(Times(Times(x, y), k), Times(z, s), b);
    TimesSum(Times(Times(x, z), k), Times(y, s), 0.0, e);
    TimesUnit(a);
    TimesUnit(e);
  }

  lemma Brought(s: real, y: real, e: real)
    ensures Times(s, Times(y, e)) == Times(Times(y, s), e)
  {
    hide Times;
    TimesRegroups(s, y, e);
    TimesCommutes(s, y);
  }

  lemma Moved(x: real, y: real, k: real, b: real)
    ensures Times(Times(k, Times(y, b)), x) == Times(Times(Times(x, y), k), b)
  {
    hide Times;
    TimesRegroups(k, y, b);
    TimesCommutes(Times(Times(k, y), b), x);
    TimesRegroups(x, Times(k, y), b);
    TimesRegroups(x, k, y);
    TimesCommutes(k, Times(x, y));
  }

  lemma {:induction false} RodriguesSwings(n: Vec3, c: real, s: real, p: Vec3)
    ensures Apply(Rodrigues(n, c, s), p) == Swing(n, c, s, p)
  {
    hide Times;
    SwingXIsRodriguesX(n.x, n.y, n.z, c, s, p.x, p.y, p.z);
    SwingXIsRodriguesX(n.y, n.z, n.x, c, s, p.y, p.z, p.x);
    SwingXIsRodriguesX(n.z, n.x, n.y, c, s, p.z, p.x, p.y);
  }

  // ------------------------------------------------- vector identities

  lemma CrossLinear(n: Vec3, p: Vec3, q: Vec3, k: real)
    ensures Cross(n, Plus(p, q)) == Plus(Cross(n, p), Cross(n, q))
    ensures Cross(n, Scale(k, p)) == Scale(k, Cross(n, p))
    ensures Cross(n, n) == ZERO
  {
    hide Times;
    Det2Linear(n.y, n.z, p.y, p.z, q.y, q.z, k);
    Det2Linear(n.z, n.x, p.z, p.x, q.z, q.x, k);
    Det2Linear(n.x, n.y, p.x, p.y, q.x, q.y, k);
    TimesCommutes(n.x, n.y);
    TimesCommutes(n.x, n.z);
    TimesCommutes(n.y, n.z);
  }

  lemma Det2Linear(a: real, b: real, c: real, d: real, e: real, f: real, k: real)
    ensures Det2(a, b, c + e, d + f) == Det2(a, b, c, d) + Det2(a, b, e, f)
    ensures Det2(a, b, Times(k, c), Times(k, d)) == Times(k, Det2(a, b, c, d))
  {
    hide Times;
    TimesDistributes(a, d, f);
    TimesDistributes(b, c, e);
    TimesRegroups(a, k, d);
    TimesRegroups(b, k, c);
    TimesDifference(Times(a, d), Times(b, c), k);
  }

  lemma DotLinear(n: Vec3, p: Vec3, k: real)
    ensures Dot(n, Scale(k, p)) == Times(k, Dot(n, p))
  {
    hide Times;
    TimesRegroups(n.x, k, p.x);
    TimesRegroups(n.y, k, p.y);
    TimesRegroups(n.z, k, p.z);
    TimesSum(Times(n.x, p.x), Times(n.y, p.y), Times(n.z, p.z), k);
  }

  lemma DotOwnCross(n: Vec3, p: Vec3)
    ensures Dot(n, Cross(n, p)) == 0.0
  {
    hide Times;
    TimesDifference(Times(n.y, p.z), Times(n.z, p.y), n.x);
    TimesDifference(Times(n.z, p.x), Times(n.x, p.z), n.y);
    TimesDifference(Times(n.x, p.y), Times(n.y, p.x), n.z);
    TimesRegroups(n.x, n.y, p.z);
    TimesRegroups(n.x, n.z, p.y);
    TimesRegroups(n.y, n.z, p.x);
  }

  // n x (n x p) == (n . p) n - (n . n) p, by component.
  lemma DoubleCrossX(x: real, y: real, z: real, a: real, b: real, e: real)
    ensures Det2(y, z, Det2(z, x, e, a), Det2(x, y, a, b))
         == Times(Times(x, a) + Times(y, b) + Times(z, e), x) - Times(Times(x, x) + Times(y, y) + Times(z, z), a)
  {
    hide Times;
    TimesDifference(Times(x, b), Times(y, a), y);
    TimesDifference(Times(z, a), Times(x, e), z);
    TimesSum(Times(x, a), Times(y, b), Times(z, e), x);
    TimesSum(Times(x, x), Times(y, y), Times(z, z), a);
    Shuffle(y, x, b);
    Shuffle(y, y, a);
    Shuffle(z, z, a);
    Shuffle(z, x, e);
    Shuffle(x, x, a);
  }

  lemma Shuffle(y: real, x: real, b: real)
    ensures Times(y, Times(x, b)) == Times(Times(y, b), x)
    ensures Times(y, Times(x, b)) == Times(Times(y, x), b)
  {
    hide Times;
    TimesRegroups(y, x, b);
    TimesRegroups(y, b, x);
    TimesCommutes(x, b);
  }

  lemma DoubleCross(n: Vec3, p: Vec3)
    requires Dot(n, n) == 1.0
    ensures Cross(n, Cross(n, p)) == Minus(Scale(Dot(n, p), n), p)
  {
    hide Times;
    DoubleCrossX(n.x, n.y, n.z, p.x, p.y, p.z);
    DoubleCrossX(n.y, n.z, n.x, p.y, p.z, p.x);
    DoubleCrossX(n.z, n.x, n.y, p.z, p.x, p.y);
    TimesUnit(p.x);
    TimesUnit(p.y);
    TimesUnit(p.z);
  }

  // ------------------------------------------- axis rotations are rotations

  lemma SwingDot(n: Vec3, c: real, s: real, p: Vec3)
    requires Dot(n, n) == 1.0
    ensures Dot(n, Swing(n, c, s, p)) == Dot(n, p)
  {
    hide Times, Dot, Cross, Scale, Plus;
    var d := Dot(n, p);
    var k := Times(1.0 - c, d);
    DotPlus(n, Plus(Scale(c, p), Scale(s, Cross(n, p))), Scale(k, n));
    DotPlus(n, Scale(c, p), Scale(s, Cross(n, p)));
    DotLinear(n, p, c);
    DotLinear(n, Cross(n, p), s);
    DotLinear(n, n, k);
    DotOwnCross(n, p);
    TimesUnit(s);
    TimesUnit(k);
    TimesDifference(1.0, c, d);
    TimesUnit(d);
  }

  lemma SwingCross(n: Vec3, c: real, s: real, p: Vec3)
    requires Dot(n, n) == 1.0
    ensures Cross(n, Swing(n, c, s, p))
         == Plus(Scale(c, Cross(n, p)), Scale(s, Minus(Scale(Dot(n, p), n), p)))
  {
    hide Times, Dot, Cross, Scale, Plus;
    var k := Times(1.0 - c, Dot(n, p));
    CrossLinear(n, Plus(Scale(c, p), Scale(s, Cross(n, p))), Scale(k, n), 0.0);
    CrossLinear(n, Scale(c, p), Scale(s, Cross(n, p)), 0.0);
    CrossLinear(n, p, p, c);
    CrossLinear(n, Cross(n, p), p, s);
    CrossLinear(n, n, p, k);
    DoubleCross(n, p);
    ZeroScale(ZERO, k);
    ZeroScale(Plus(Scale(c, Cross(n, p)), Scale(s, Cross(n, Cross(n, p)))), k);
  }

  // One coordinate of swinging forth and back.
  lemma SwingBackX(c: real, s: real, d: real, p: real, q: real, n: real)
    requires OnCircle(c, s)
    ensures Times(c, Times(c, p) + Times(s, q) + Times(Times(1.0 - c, d), n))
            + Times(-s, Times(c, q) + Times(s, Times(d, n) - p)) + Times(Times(1.0 - c, d), n) == p
  {
    hide Times;
    var dn := Times(d, n);
    TimesRegroups(1.0 - c, d, n);
    TimesDifference(1.0, c, dn);
    TimesUnit(dn);
    TimesSum(Times(c, p), Times(s, q), dn - Times(c, dn), c);
    TimesDifference(dn, Times(c, dn), c);
    TimesSum(Times(c, q), Times(s, dn - p), 0.0, -s);
    TimesUnit(-s);
    TimesDifference(0.0, s, Times(c, q));
    TimesDifference(0.0, s, Times(s, dn - p));
    TimesDifference(dn, p, s);
    TimesDifference(Times(s, dn), Times(s, p), s);
    TimesRegroups(c, s, q);
    TimesRegroups(c, c, p);
    TimesRegroups(c, c, dn);
    TimesRegroups(s, s, p);
    TimesRegroups(s, s, dn);
    TimesSum(Times(c, c), Times(s, s), 0.0, p);
    TimesSum(Times(c, c), Times(s, s), 0.0, dn);
    TimesUnit(p);
  }

  lemma SwingBack(n: Vec3, c: real, s: real, p: Vec3)
    requires Dot(n, n) == 1.0 && OnCircle(c, s)
    ensures Swing(n, c, -s, Swing(n, c, s, p)) == p
  {
    hide Times, Dot, Cross;
    SwingDot(n, c, s, p);
    SwingCross(n, c, s, p);
    var (d, q) := (Dot(n, p), Cross(n, p));
    SwingBackX(c, s, d, p.x, q.x, n.x);
    SwingBackX(c, s, d, p.y, q.y, n.y);
    SwingBackX(c, s, d, p.z, q.z, n.z);
  }

  lemma RodriguesTransposed(n: Vec3, c: real, s: real)
    ensures Transpose(Rodrigues(n, c, s)) == Rodrigues(n, c, -s)
  {
    hide Times;
    TimesCommutes(n.x, n.y);
    TimesCommutes(n.x, n.z);
    TimesCommutes(n.y, n.z);
    TimesDifference(0.0, s, n.x);
    TimesDifference(0.0, s, n.y);
    TimesDifference(0.0, s, n.z);
  }

  lemma RodriguesUndone(n: Vec3, c: real, s: real, p: Vec3)
    requires Dot(n, n) == 1.0 && OnCircle(c, s)
    ensures Apply(Mul(Transpose(Rodrigues(n, c, s)), Rodrigues(n, c, s)), p) == p
  {
    hide Times, Dot, Rodrigues, Swing, Mul, Apply, Transpose;
    ApplyMul(Transpose(Rodrigues(n, c, s)), Rodrigues(n, c, s), p);
    RodriguesTransposed(n, c, s);
    RodriguesSwings(n, c, s, p);
    RodriguesSwings(n, c, -s, Swing(n, c, s, p));
    SwingBack(n, c, s, p);
  }

  lemma RodriguesHalf(n: Vec3, c: real, s: real)
    requires Dot(n, n) == 1.0 && OnCircle(c, s)
    ensures Mul(Transpose(Rodrigues(n, c, s)), Rodrigues(n, c, s)) == IDENTITY
  {
    hide Times, Dot, Rodrigues, Mul, Apply, Transpose;
    RodriguesUndone(n, c, s, Vec3(1.0, 0.0, 0.0));
    RodriguesUndone(n, c, s, Vec3(0.0, 1.0, 0.0));
    RodriguesUndone(n, c, s, Vec3(0.0, 0.0, 1.0));
    MatrixFromAction(Mul(Transpose(Rodrigues(n, c, s)), Rodrigues(n, c, s)));
  }

  // Every rotation about a unit axis is orthonormal.
  lemma {:induction false} RodriguesOrthonormal(n: Vec3, c: real, s: real)
    requires Dot(n, n) == 1.0 && OnCircle(c, s)
    ensures Orthonormal(Rodrigues(n, c, s))
  {
    hide Times, Dot, Rodrigues, Mul;
    RodriguesHalf(n, c, s);
    NegatedProduct(s, s);
    RodriguesHalf(n, c, -s);
    RodriguesTransposed(n, c, s);
    RodriguesTransposed(n, c, -s);
  }
}
