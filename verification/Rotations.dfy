// Three-dimensional rotations: quaternions in (w, x, y, z) order, rotation
// matrices, and the agreement of the two.
module Rotations {
  import opened Products

  datatype Vec3 = Vec3(x: real, y: real, z: real)

  // Rows a, b, c.
  datatype Mat3 = Mat3(a: Vec3, b: Vec3, c: Vec3)

  datatype Quat = Quat(w: real, v: Vec3)

  // ---------------------------------------------------------------- vectors

  function Dot(p: Vec3, q: Vec3): real {
    Times(p.x, q.x) + Times(p.y, q.y) + Times(p.z, q.z)
  }

  function Det2(a: real, b: real, c: real, d: real): real {
    Times(a, d) - Times(b, c)
  }

  function Cross(p: Vec3, q: Vec3): Vec3 {
    Vec3(Det2(p.y, p.z, q.y, q.z), Det2(p.z, p.x, q.z, q.x), Det2(p.x, p.y, q.x, q.y))
  }

  function Plus(p: Vec3, q: Vec3): Vec3 {
    Vec3(p.x + q.x, p.y + q.y, p.z + q.z)
  }

  function Minus(p: Vec3, q: Vec3): Vec3 {
    Vec3(p.x - q.x, p.y - q.y, p.z - q.z)
  }

  function Scale(k: real, p: Vec3): Vec3 {
    Vec3(Times(k, p.x), Times(k, p.y), Times(k, p.z))
  }

  const ZERO := Vec3(0.0, 0.0, 0.0)

  // --------------------------------------------------------------- matrices

  const IDENTITY := Mat3(Vec3(1.0, 0.0, 0.0), Vec3(0.0, 1.0, 0.0), Vec3(0.0, 0.0, 1.0))

  function Apply(m: Mat3, p: Vec3): Vec3 {
    Vec3(Dot(m.a, p), Dot(m.b, p), Dot(m.c, p))
  }

  function Transpose(m: Mat3): Mat3 {
    Mat3(Vec3(m.a.x, m.b.x, m.c.x), Vec3(m.a.y, m.b.y, m.c.y), Vec3(m.a.z, m.b.z, m.c.z))
  }

  // The row vector p @ m.
  function RowTimes(p: Vec3, m: Mat3): Vec3 {
    Apply(Transpose(m), p)
  }

  function Mul(m: Mat3, n: Mat3): Mat3 {
    Mat3(RowTimes(m.a, n), RowTimes(m.b, n), RowTimes(m.c, n))
  }

  function Add(m: Mat3, n: Mat3): Mat3 {
    Mat3(Plus(m.a, n.a), Plus(m.b, n.b), Plus(m.c, n.c))
  }

  ghost predicate Orthonormal(m: Mat3) {
    Mul(Transpose(m), m) == IDENTITY && Mul(m, Transpose(m)) == IDENTITY
  }

  lemma ApplyMul(m: Mat3, n: Mat3, p: Vec3)
    ensures Apply(Mul(m, n), p) == Apply(m, Apply(n, p))
  {
    DotRow(m.a, n, p);
    DotRow(m.b, n, p);
    DotRow(m.c, n, p);
  }

  lemma DotRow(r: Vec3, n: Mat3, p: Vec3)
    ensures Dot(RowTimes(r, n), p) == Dot(r, Apply(n, p))
  {
  }

  lemma TransposeMul(m: Mat3, n: Mat3)
    ensures Transpose(Mul(m, n)) == Mul(Transpose(n), Transpose(m))
  {
  }

  lemma RowTimesMul(r: Vec3, m: Mat3, n: Mat3)
    ensures RowTimes(RowTimes(r, m), n) == RowTimes(r, Mul(m, n))
  {
    TransposeMul(m, n);
    ApplyMul(Transpose(n), Transpose(m), r);
  }

  lemma MulAssociates(l: Mat3, m: Mat3, n: Mat3)
    ensures Mul(Mul(l, m), n) == Mul(l, Mul(m, n))
  {
    hide RowTimes;
    RowTimesMul(l.a, m, n);
    RowTimesMul(l.b, m, n);
    RowTimesMul(l.c, m, n);
  }

  lemma MulIdentity(m: Mat3)
    ensures Mul(m, IDENTITY) == m && Mul(IDENTITY, m) == m
  {
  }

  lemma ApplyIdentity(p: Vec3)
    ensures Apply(IDENTITY, p) == p && RowTimes(p, IDENTITY) == p
  {
  }

  // Orthonormal matrices form a group.
  lemma OrthonormalMul(m: Mat3, n: Mat3)
    requires Orthonormal(m) && Orthonormal(n)
    ensures Orthonormal(Mul(m, n))
  {
    hide Mul, Transpose;
    Cancels(Transpose(n), Transpose(m), m, n);
    Cancels(m, n, Transpose(n), Transpose(m));
    TransposeMul(m, n);
  }

  lemma Cancels(a: Mat3, b: Mat3, c: Mat3, d: Mat3)
    requires Mul(b, c) == IDENTITY
    ensures Mul(Mul(a, b), Mul(c, d)) == Mul(a, d)
  {
    hide Mul;
    MulAssociates(Mul(a, b), c, d);
    MulAssociates(a, b, c);
    MulIdentity(a);
  }

  // Rotating both arguments leaves a dot product alone.
  lemma OrthonormalKeepsDot(m: Mat3, p: Vec3, q: Vec3)
    requires Orthonormal(m)
    ensures Dot(Apply(m, p), Apply(m, q)) == Dot(p, q)
  {
    hide Apply, Mul, Dot;
    DotTransposed(m, p, Apply(m, q));
    ApplyMul(Transpose(m), m, q);
    ApplyIdentity(q);
  }

  lemma DotTransposed(m: Mat3, p: Vec3, q: Vec3)
    ensures Dot(Apply(m, p), q) == Dot(p, Apply(Transpose(m), q))
  {
  }

  lemma ApplyMinus(m: Mat3, p: Vec3, q: Vec3)
    ensures Apply(m, Minus(p, q)) == Minus(Apply(m, p), Apply(m, q))
  {
  }

  function SquaredDistance(p: Vec3, q: Vec3): real {
    Dot(Minus(p, q), Minus(p, q))
  }

  // Its expanded square, and the points it is zero for.
  lemma SquaredDistanceExpands(p: Vec3, q: Vec3)
    ensures SquaredDistance(p, q) == Dot(p, p) - 2.0 * Dot(p, q) + Dot(q, q) >= 0.0
    ensures SquaredDistance(p, q) == 0.0 <==> p == q
  {
    hide Times;
    SquareOfSum(p.x, q.x);
    SquareOfSum(p.y, q.y);
    SquareOfSum(p.z, q.z);
    SquareSign(p.x - q.x);
    SquareSign(p.y - q.y);
    SquareSign(p.z - q.z);
  }

  // -------------------------------------------------------------- quaternions

  function SquaredNorm(q: Quat): real {
    Times(q.w, q.w) + Dot(q.v, q.v)
  }

  function Negate(p: Vec3): Vec3 {
    Vec3(-p.x, -p.y, -p.z)
  }

  function Conjugate(q: Quat): Quat {
    Quat(q.w, Negate(q.v))
  }

  // `quaternion_multiply`
  function QuatMul(p: Quat, q: Quat): Quat {
    Quat(Times(p.w, q.w) - Dot(p.v, q.v), Plus(Plus(Scale(p.w, q.v), Scale(q.w, p.v)), Cross(p.v, q.v)))
  }

  // `rotate_quaternion`: p + 2 (w (v x p) + v x (v x p))
  function Rotate(q: Quat, p: Vec3): Vec3 {
    var crossed := Cross(q.v, p);
    Plus(p, Scale(2.0, Plus(Scale(q.w, crossed), Cross(q.v, crossed))))
  }

  // `quaternion_wxyz_to_matrix`
  function Matrix(q: Quat): Mat3 {
    var (w, x, y, z) := (q.w, q.v.x, q.v.y, q.v.z);
    var (xx, yy, zz) := (Times(x, x), Times(y, y), Times(z, z));
    var (xy, xz, yz) := (Times(x, y), Times(x, z), Times(y, z));
    var (xw, yw, zw) := (Times(x, w), Times(y, w), Times(z, w));
    Mat3(Vec3(1.0 - 2.0 * (yy + zz), 2.0 * (xy - zw), 2.0 * (xz + yw)),
         Vec3(2.0 * (xy + zw), 1.0 - 2.0 * (xx + zz), 2.0 * (yz - xw)),
         Vec3(2.0 * (xz - yw), 2.0 * (yz + xw), 1.0 - 2.0 * (xx + yy)))
  }

  // The x component of both formulas; y and z are x with the axes turned.
  function RotateX(w: real, x: real, y: real, z: real, a: real, b: real, c: real): real {
    a + Times(2.0, Times(w, Det2(y, z, b, c)) + Det2(y, z, Det2(z, x, c, a), Det2(x, y, a, b)))
  }

  function MatrixX(w: real, x: real, y: real, z: real, a: real, b: real, c: real): real {
    Times(1.0 - 2.0 * (Times(y, y) + Times(z, z)), a) + Times(2.0 * (Times(x, y) - Times(z, w)), b)
    + Times(2.0 * (Times(x, z) + Times(y, w)), c)
  }

  lemma RotateXIsMatrixX(w: real, x: real, y: real, z: real, a: real, b: real, c: real)
    ensures RotateX(w, x, y, z, a, b, c) == MatrixX(w, x, y, z, a, b, c)
  {
    hide Times;
    ExpandRotate(w, x, y, z, a, b, c);
    TimesDifference(1.0, 2.0 * (Times(y, y) + Times(z, z)), a);
    TimesUnit(a);
    Doubled(Times(y, y), Times(z, z), a);
    Doubled(Times(x, y), -Times(z, w), b);
    TimesDifference(0.0, Times(z, w), b);
    Doubled(Times(x, z), Times(y, w), c);
    Times3Commutes(w, y, c);
    Times3Commutes(w, z, b);
  }

  lemma Doubled(p: real, q: real, t: real)
    ensures Times(2.0 * (p + q), t) == 2.0 * (Times(p, t) + Times(q, t))
  {
    hide Times;
    TimesTwo(p + q);
    TimesSum(p + q, p + q, 0.0, t);
    TimesSum(p, q, 0.0, t);
    TimesUnit(t);
  }

  // Every triple product in a rotated x component.
  lemma ExpandRotate(w: real, x: real, y: real, z: real, a: real, b: real, c: real)
    ensures RotateX(w, x, y, z, a, b, c)
         == a + 2.0 * (Times3(w, y, c) - Times3(w, z, b) + Times3(x, y, b) - Times3(y, y, a) - Times3(z, z, a)
                       + Times3(x, z, c))
  {
    hide Times;
    var inner := Times(w, Det2(y, z, b, c)) + Det2(y, z, Det2(z, x, c, a), Det2(x, y, a, b));
    TimesTwo(inner);
    TimesDifference(Times(y, c), Times(z, b), w);
    TimesDifference(Times(x, b), Times(y, a), y);
    TimesDifference(Times(z, a), Times(x, c), z);
    Times3Commutes(w, y, c);
    Times3Commutes(w, z, b);
    Times3Commutes(y, x, b);
    Times3Commutes(y, y, a);
    Times3Commutes(z, z, a);
    Times3Commutes(z, x, c);
  }

  lemma RotateComponents(q: Quat, p: Vec3)
    ensures Rotate(q, p) == Vec3(RotateX(q.w, q.v.x, q.v.y, q.v.z, p.x, p.y, p.z),
                                 RotateX(q.w, q.v.y, q.v.z, q.v.x, p.y, p.z, p.x),
                                 RotateX(q.w, q.v.z, q.v.x, q.v.y, p.z, p.x, p.y))
  {
    hide Times, Det2;
  }

  lemma MatrixComponents(q: Quat, p: Vec3)
    ensures Apply(Matrix(q), p) == Vec3(MatrixX(q.w, q.v.x, q.v.y, q.v.z, p.x, p.y, p.z),
                                        MatrixX(q.w, q.v.y, q.v.z, q.v.x, p.y, p.z, p.x),
                                        MatrixX(q.w, q.v.z, q.v.x, q.v.y, p.z, p.x, p.y))
  {
    hide Times;
    TimesCommutes(q.v.x, q.v.y);
    TimesCommutes(q.v.x, q.v.z);
    TimesCommutes(q.v.y, q.v.z);
  }

  // The two scripts' formulas are the same map, for every quaternion.
  lemma RotateIsMatrix(q: Quat, p: Vec3)
    ensures Rotate(q, p) == Apply(Matrix(q), p)
  {
    hide Rotate, Matrix, Apply, RotateX, MatrixX;
    RotateComponents(q, p);
    MatrixComponents(q, p);
    RotateXIsMatrixX(q.w, q.v.x, q.v.y, q.v.z, p.x, p.y, p.z);
    RotateXIsMatrixX(q.w, q.v.y, q.v.z, q.v.x, p.y, p.z, p.x);
    RotateXIsMatrixX(q.w, q.v.z, q.v.x, q.v.y, p.z, p.x, p.y);
  }

  // ------------------------------------------------- the quaternion algebra

  // Scalar and x component of a product; y and z are x with the axes turned.
  function MulW(a: real, b: real, c: real, d: real, e: real, f: real, g: real, h: real): real {
    Times(a, e) - (Times(b, f) + Times(c, g) + Times(d, h))
  }

  function MulX(a: real, b: real, c: real, d: real, e: real, f: real, g: real, h: real): real {
    Times(a, f) + Times(e, b) + Det2(c, d, g, h)
  }

  lemma QuatMulComponents(p: Quat, q: Quat)
    ensures QuatMul(p, q)
         == Quat(MulW(p.w, p.v.x, p.v.y, p.v.z, q.w, q.v.x, q.v.y, q.v.z),
                 Vec3(MulX(p.w, p.v.x, p.v.y, p.v.z, q.w, q.v.x, q.v.y, q.v.z),
                      MulX(p.w, p.v.y, p.v.z, p.v.x, q.w, q.v.y, q.v.z, q.v.x),
                      MulX(p.w, p.v.z, p.v.x, p.v.y, q.w, q.v.z, q.v.x, q.v.y)))
  {
    hide Times, Det2;
  }

  // Product components times one more factor, spread into triple products.
  lemma SpreadRight(a: real, b: real, c: real, d: real, e: real, f: real, g: real, h: real, t: real)
    ensures Times(MulW(a, b, c, d, e, f, g, h), t)
         == Times3(a, e, t) - Times3(b, f, t) - Times3(c, g, t) - Times3(d, h, t)
    ensures Times(MulX(a, b, c, d, e, f, g, h), t)
         == Times3(a, f, t) + Times3(b, e, t) + Times3(c, h, t) - Times3(d, g, t)
  {
    hide Times;
    var be, cg, dh := Times(b, f), Times(c, g), Times(d, h);
    TimesDifference(Times(a, e), be + cg + dh, t);
    TimesSum(be, cg, dh, t);
    TimesSum(Times(a, f), Times(e, b), Det2(c, d, g, h), t);
    TimesDifference(Times(c, h), Times(d, g), t);
    TimesCommutes(e, b);
  }

  lemma SpreadLeft(s: real, e: real, f: real, g: real, h: real, i: real, j: real, k: real, l: real)
    ensures Times(s, MulW(e, f, g, h, i, j, k, l))
         == Times3(s, e, i) - Times3(s, f, j) - Times3(s, g, k) - Times3(s, h, l)
    ensures Times(s, MulX(e, f, g, h, i, j, k, l))
         == Times3(s, e, j) + Times3(s, f, i) + Times3(s, g, l) - Times3(s, h, k)
  {
    hide Times;
    TimesCommutes(s, MulW(e, f, g, h, i, j, k, l));
    TimesCommutes(s, MulX(e, f, g, h, i, j, k, l));
    SpreadRight(e, f, g, h, i, j, k, l, s);
    Turn3(s, e, i);
    Turn3(s, f, j);
    Turn3(s, g, k);
    Turn3(s, h, l);
    Turn3(s, e, j);
    Turn3(s, f, i);
    Turn3(s, g, l);
    Turn3(s, h, k);
  }

  lemma Turn3(s: real, p: real, q: real)
    ensures Times3(p, q, s) == Times3(s, p, q)
  {
    hide Times, Times3;
    Times3Commutes(p, q, s);
    Times3Commutes(p, s, q);
  }

  lemma AssociatesW(a: real, b: real, c: real, d: real, e: real, f: real, g: real, h: real,
                    i: real, j: real, k: real, l: real)
    ensures MulW(MulW(a, b, c, d, e, f, g, h), MulX(a, b, c, d, e, f, g, h), MulX(a, c, d, b, e, g, h, f),
                 MulX(a, d, b, c, e, h, f, g), i, j, k, l)
         == MulW(a, b, c, d, MulW(e, f, g, h, i, j, k, l), MulX(e, f, g, h, i, j, k, l), MulX(e, g, h, f, i, k, l, j),
                 MulX(e, h, f, g, i, l, j, k))
  {
    hide Times, Times3, MulX;
    SpreadRight(a, b, c, d, e, f, g, h, i);
    SpreadRight(a, b, c, d, e, f, g, h, j);
    SpreadRight(a, c, d, b, e, g, h, f, k);
    SpreadRight(a, d, b, c, e, h, f, g, l);
    SpreadLeft(a, e, f, g, h, i, j, k, l);
    SpreadLeft(b, e, f, g, h, i, j, k, l);
    SpreadLeft(c, e, g, h, f, i, k, l, j);
    SpreadLeft(d, e, h, f, g, i, l, j, k);
  }

  lemma AssociatesX(a: real, b: real, c: real, d: real, e: real, f: real, g: real, h: real,
                    i: real, j: real, k: real, l: real)
    ensures MulX(MulW(a, b, c, d, e, f, g, h), MulX(a, b, c, d, e, f, g, h), MulX(a, c, d, b, e, g, h, f),
                 MulX(a, d, b, c, e, h, f, g), i, j, k, l)
         == MulX(a, b, c, d, MulW(e, f, g, h, i, j, k, l), MulX(e, f, g, h, i, j, k, l), MulX(e, g, h, f, i, k, l, j),
                 MulX(e, h, f, g, i, l, j, k))
  {
    hide Times, Times3, MulW;
    SpreadRight(a, b, c, d, e, f, g, h, j);
    SpreadRight(a, b, c, d, e, f, g, h, i);
    TimesCommutes(i, MulX(a, b, c, d, e, f, g, h));
    SpreadRight(a, c, d, b, e, g, h, f, l);
    SpreadRight(a, d, b, c, e, h, f, g, k);
    SpreadLeft(a, e, f, g, h, i, j, k, l);
    SpreadLeft(b, e, f, g, h, i, j, k, l);
    TimesCommutes(b, MulW(e, f, g, h, i, j, k, l));
    SpreadLeft(c, e, h, f, g, i, l, j, k);
    SpreadLeft(d, e, g, h, f, i, k, l, j);
  }

  // The scalar product does not care which axis comes first.
  lemma MulWTurns(a: real, b: real, c: real, d: real, e: real, f: real, g: real, h: real)
    ensures MulW(a, b, c, d, e, f, g, h) == MulW(a, c, d, b, e, g, h, f) == MulW(a, d, b, c, e, h, f, g)
  {
  }

  lemma QuatMulAssociates(p: Quat, q: Quat, r: Quat)
    ensures QuatMul(QuatMul(p, q), r) == QuatMul(p, QuatMul(q, r))
  {
    hide QuatMul, MulW, MulX;
    var (a, b, c, d) := (p.w, p.v.x, p.v.y, p.v.z);
    var (e, f, g, h) := (q.w, q.v.x, q.v.y, q.v.z);
    var (i, j, k, l) := (r.w, r.v.x, r.v.y, r.v.z);
    QuatMulComponents(p, q);
    QuatMulComponents(q, r);
    QuatMulComponents(QuatMul(p, q), r);
    QuatMulComponents(p, QuatMul(q, r));
    MulWTurns(a, b, c, d, e, f, g, h);
    MulWTurns(e, f, g, h, i, j, k, l);
    AssociatesW(a, b, c, d, e, f, g, h, i, j, k, l);
    AssociatesX(a, b, c, d, e, f, g, h, i, j, k, l);
    AssociatesX(a, c, d, b, e, g, h, f, i, k, l, j);
    AssociatesX(a, d, b, c, e, h, f, g, i, l, j, k);
  }

  lemma ConjugateComponents(a: real, b: real, c: real, d: real, e: real, f: real, g: real, h: real)
    ensures MulW(e, -f, -g, -h, a, -b, -c, -d) == MulW(a, b, c, d, e, f, g, h)
    ensures MulX(e, -f, -g, -h, a, -b, -c, -d) == -MulX(a, b, c, d, e, f, g, h)
  {
  }

  lemma ConjugateMul(p: Quat, q: Quat)
    ensures Conjugate(QuatMul(p, q)) == QuatMul(Conjugate(q), Conjugate(p))
  {
    hide QuatMul, MulW, MulX;
    var (a, b, c, d) := (p.w, p.v.x, p.v.y, p.v.z);
    var (e, f, g, h) := (q.w, q.v.x, q.v.y, q.v.z);
    QuatMulComponents(p, q);
    QuatMulComponents(Conjugate(q), Conjugate(p));
    ConjugateComponents(a, b, c, d, e, f, g, h);
    ConjugateComponents(a, c, d, b, e, g, h, f);
    ConjugateComponents(a, d, b, c, e, h, f, g);
  }

  // q p q*, for a vector p.
  function Sandwich(q: Quat, p: Vec3): Quat {
    QuatMul(QuatMul(q, Quat(0.0, p)), Conjugate(q))
  }

  function SandwichX(w: real, x: real, y: real, z: real, a: real, b: real, c: real): real {
    RotateX(w, x, y, z, a, b, c) + Times(NormOf(w, x, y, z) - 1.0, a)
  }

  // The inner product q (0, p).
  function InnerW(x: real, y: real, z: real, a: real, b: real, c: real): real {
    -(Times(x, a) + Times(y, b) + Times(z, c))
  }

  function InnerX(w: real, y: real, z: real, a: real, b: real, c: real): real {
    Times(w, a) + Det2(y, z, b, c)
  }

  lemma InnerComponents(w: real, x: real, y: real, z: real, a: real, b: real, c: real)
    ensures MulW(w, x, y, z, 0.0, a, b, c) == InnerW(x, y, z, a, b, c)
    ensures MulX(w, x, y, z, 0.0, a, b, c) == InnerX(w, y, z, a, b, c)
  {
  }

  lemma OuterW(w: real, x: real, y: real, z: real, a: real, b: real, c: real)
    ensures MulW(InnerW(x, y, z, a, b, c), InnerX(w, y, z, a, b, c), InnerX(w, z, x, b, c, a), InnerX(w, x, y, c, a, b),
                 w, -x, -y, -z) == 0.0
  {
    ExpandOuterW(w, x, y, z, a, b, c);
  }

  lemma ExpandOuterW(w: real, x: real, y: real, z: real, a: real, b: real, c: real)
    ensures (-(x * a + y * b + z * c)) * w
            - ((w * a + (y * c - z * b)) * (-x) + (w * b + (z * a - x * c)) * (-y)
               + (w * c + (x * b - y * a)) * (-z)) == 0.0
  {
  }

  lemma OuterX(w: real, x: real, y: real, z: real, a: real, b: real, c: real)
    ensures MulX(InnerW(x, y, z, a, b, c), InnerX(w, y, z, a, b, c), InnerX(w, z, x, b, c, a), InnerX(w, x, y, c, a, b),
                 w, -x, -y, -z) == SandwichX(w, x, y, z, a, b, c)
  {
    hide Times, Times3, RotateX;
    ExpandRotate(w, x, y, z, a, b, c);
    // InnerW (-x)
    TimesSum(Times(x, a), Times(y, b), Times(z, c), x);
    NegatedProduct(Times(x, a) + Times(y, b) + Times(z, c), x);
    Times3Grouping(x, a, x);
    Times3Grouping(y, b, x);
    Times3Grouping(z, c, x);
    // w InnerX
    TimesSum(Times(w, a), Det2(y, z, b, c), 0.0, w);
    TimesDifference(Times(y, c), Times(z, b), w);
    TimesUnit(w);
    Times3Commutes(w, w, a);
    Times3Commutes(w, y, c);
    Times3Commutes(w, z, b);
    // InnerX' (-z)
    TimesDifference(0.0, z, InnerX(w, z, x, b, c, a));
    TimesSum(Times(w, b), Det2(z, x, c, a), 0.0, z);
    TimesDifference(Times(z, a), Times(x, c), z);
    TimesUnit(z);
    Times3Grouping(w, b, z);
    Times3Grouping(z, a, z);
    Times3Grouping(x, c, z);
    // InnerX'' (-y)
    TimesDifference(0.0, y, InnerX(w, x, y, c, a, b));
    TimesSum(Times(w, c), Det2(x, y, a, b), 0.0, y);
    TimesDifference(Times(x, b), Times(y, a), y);
    TimesUnit(y);
    Times3Grouping(w, c, y);
    Times3Grouping(x, b, y);
    Times3Grouping(y, a, y);
    // (|q|^2 - 1) a
    TimesDifference(NormOf(w, x, y, z), 1.0, a);
    TimesSum(Times(w, w), Times(x, x) + Times(y, y) + Times(z, z), 0.0, a);
    TimesSum(Times(x, x), Times(y, y), Times(z, z), a);
    TimesUnit(a);
    Times3Is(w, w, a);
    Times3Is(x, x, a);
    Times3Is(y, y, a);
    Times3Is(z, z, a);
  }

  lemma Times3Is(p: real, q: real, r: real)
    ensures Times3(p, q, r) == Times(Times(p, q), r)
  {
  }

  // (p q) r with the outer factors brought together.
  lemma Times3Grouping(p: real, q: real, r: real)
    ensures Times(Times(p, q), r) == Times3(p, r, q) == Times3(r, p, q)
  {
    hide Times, Times3;
    Times3Is(p, q, r);
    Times3Commutes(p, q, r);
    Times3Commutes(p, r, q);
  }

  lemma NegatedProduct(p: real, q: real)
    ensures Times(-p, -q) == Times(p, q)
  {
    hide Times;
    TimesDifference(0.0, p, -q);
    TimesDifference(0.0, q, p);
  }

  // The sandwich product is the rotation up to the defect of the norm.
  lemma SandwichIsRotation(q: Quat, p: Vec3)
    ensures Sandwich(q, p) == Quat(0.0, Plus(Rotate(q, p), Scale(SquaredNorm(q) - 1.0, p)))
  {
    hide QuatMul, MulW, MulX, Rotate, RotateX, InnerW, InnerX, Times, NormOf;
    var (w, x, y, z) := (q.w, q.v.x, q.v.y, q.v.z);
    SquaredNormIs(q);
    NormTurns(w, x, y, z);
    var (a, b, c) := (p.x, p.y, p.z);
    QuatMulComponents(q, Quat(0.0, p));
    QuatMulComponents(QuatMul(q, Quat(0.0, p)), Conjugate(q));
    InnerComponents(w, x, y, z, a, b, c);
    InnerComponents(w, y, z, x, b, c, a);
    InnerComponents(w, z, x, y, c, a, b);
    OuterW(w, x, y, z, a, b, c);
    OuterX(w, x, y, z, a, b, c);
    InnerWTurns(x, y, z, a, b, c);
    OuterX(w, y, z, x, b, c, a);
    OuterX(w, z, x, y, c, a, b);
    RotateComponents(q, p);
  }

  lemma NormTurns(w: real, x: real, y: real, z: real)
    ensures NormOf(w, x, y, z) == NormOf(w, y, z, x) == NormOf(w, z, x, y)
  {
  }

  lemma InnerWTurns(x: real, y: real, z: real, a: real, b: real, c: real)
    ensures InnerW(x, y, z, a, b, c) == InnerW(y, z, x, b, c, a) == InnerW(z, x, y, c, a, b)
  {
  }

  ghost predicate Unit(q: Quat) {
    SquaredNorm(q) == 1.0
  }

  // q q* is |q|^2.
  lemma NormIsProduct(q: Quat)
    ensures QuatMul(q, Conjugate(q)) == Quat(SquaredNorm(q), ZERO)
    ensures QuatMul(Conjugate(q), q) == Quat(SquaredNorm(q), ZERO)
  {
  }

  lemma UnitProduct(q: Quat)
    ensures QuatMul(Quat(1.0, ZERO), q) == q && QuatMul(q, Quat(1.0, ZERO)) == q
  {
  }

  // (p q)(p q)* is p (q q*) p*.
  lemma ProductOfUnits(p: Quat, q: Quat)
    requires Unit(p) && Unit(q)
    ensures Unit(QuatMul(p, q))
  {
    hide QuatMul, Conjugate, SquaredNorm;
    var (p', q') := (Conjugate(p), Conjugate(q));
    NormIsProduct(QuatMul(p, q));
    ConjugateMul(p, q);
    QuatMulAssociates(p, q, QuatMul(q', p'));
    QuatMulAssociates(q, q', p');
    NormIsProduct(q);
    UnitProduct(p');
    NormIsProduct(p);
  }

  lemma UnitSandwich(q: Quat, p: Vec3)
    requires Unit(q)
    ensures Sandwich(q, p) == Quat(0.0, Rotate(q, p))
  {
    hide Sandwich, Rotate, SquaredNorm, Times;
    SandwichIsRotation(q, p);
    TimesUnit(p.x);
    TimesUnit(p.y);
    TimesUnit(p.z);
  }

  // Multiplying unit quaternions composes their rotations, right one first.
  lemma {:induction false} RotateComposes(q1: Quat, q2: Quat, p: Vec3)
    requires Unit(q1) && Unit(q2)
    ensures Rotate(QuatMul(q1, q2), p) == Rotate(q1, Rotate(q2, p))
  {
    hide QuatMul, Conjugate, Rotate, SquaredNorm;
    var v, c1, c2 := Quat(0.0, p), Conjugate(q1), Conjugate(q2);
    ProductOfUnits(q1, q2);
    UnitSandwich(QuatMul(q1, q2), p);
    UnitSandwich(q2, p);
    UnitSandwich(q1, Rotate(q2, p));
    ConjugateMul(q1, q2);
    // (q1 q2) v (c2 c1) == q1 (q2 v c2) c1
    QuatMulAssociates(q1, q2, v);
    QuatMulAssociates(QuatMul(q1, QuatMul(q2, v)), c2, c1);
    QuatMulAssociates(q1, QuatMul(q2, v), c2);
  }

  // A unit quaternion's conjugate undoes its rotation.
  lemma {:induction false} ConjugateUndoes(q: Quat, p: Vec3)
    requires Unit(q)
    ensures Rotate(Conjugate(q), Rotate(q, p)) == p
  {
    hide QuatMul, Rotate;
    ConjugateNorm(q);
    NormIsProduct(q);
    RotateComposes(Conjugate(q), q, p);
    RotateByOne(p);
  }

  lemma ConjugateNorm(q: Quat)
    ensures SquaredNorm(Conjugate(q)) == SquaredNorm(q)
    ensures Conjugate(Conjugate(q)) == q
  {
    hide SquaredNorm, NormOf;
    SquaredNormIs(q);
    SquaredNormIs(Conjugate(q));
    NormOfNegated(q.w, q.v.x, q.v.y, q.v.z);
  }

  function NormOf(w: real, x: real, y: real, z: real): real {
    Times(w, w) + (Times(x, x) + Times(y, y) + Times(z, z))
  }

  lemma SquaredNormIs(q: Quat)
    ensures SquaredNorm(q) == NormOf(q.w, q.v.x, q.v.y, q.v.z)
  {
  }

  lemma NormOfNegated(w: real, x: real, y: real, z: real)
    ensures NormOf(w, -x, -y, -z) == NormOf(w, x, y, z)
  {
    hide Times;
    NegatedProduct(x, x);
    NegatedProduct(y, y);
    NegatedProduct(z, z);
  }

  lemma RotateByOne(p: Vec3)
    ensures Rotate(Quat(1.0, ZERO), p) == p
  {
  }

  // ------------------------------------------------------ orthonormality

  lemma MatrixFromAction(m: Mat3)
    requires Apply(m, Vec3(1.0, 0.0, 0.0)) == Vec3(1.0, 0.0, 0.0)
    requires Apply(m, Vec3(0.0, 1.0, 0.0)) == Vec3(0.0, 1.0, 0.0)
    requires Apply(m, Vec3(0.0, 0.0, 1.0)) == Vec3(0.0, 0.0, 1.0)
    ensures m == IDENTITY
  {
    hide Times;
    UnitRow(m.a);
    UnitRow(m.b);
    UnitRow(m.c);
  }

  lemma UnitRow(r: Vec3)
    ensures Dot(r, Vec3(1.0, 0.0, 0.0)) == r.x
    ensures Dot(r, Vec3(0.0, 1.0, 0.0)) == r.y
    ensures Dot(r, Vec3(0.0, 0.0, 1.0)) == r.z
  {
    hide Times;
    TimesUnit(r.x);
    TimesUnit(r.y);
    TimesUnit(r.z);
  }

  lemma UnitUndone(q: Quat, p: Vec3)
    requires Unit(q)
    ensures Apply(Mul(Transpose(Matrix(q)), Matrix(q)), p) == p
  {
    hide Mul, Transpose, Matrix, Apply, Rotate, SquaredNorm;
    ApplyMul(Transpose(Matrix(q)), Matrix(q), p);
    ConjugateTransposes(q);
    RotateIsMatrix(q, p);
    RotateIsMatrix(Conjugate(q), Rotate(q, p));
    ConjugateUndoes(q, p);
  }

  lemma ConjugateTransposes(q: Quat)
    ensures Matrix(Conjugate(q)) == Transpose(Matrix(q))
  {
    hide Times;
    var (w, x, y, z) := (q.w, q.v.x, q.v.y, q.v.z);
    NegatedProduct(x, x);
    NegatedProduct(y, y);
    NegatedProduct(z, z);
    NegatedProduct(x, y);
    NegatedProduct(x, z);
    NegatedProduct(y, z);
    TimesDifference(0.0, x, w);
    TimesDifference(0.0, y, w);
    TimesDifference(0.0, z, w);
  }

  lemma UnitHalf(q: Quat)
    requires Unit(q)
    ensures Mul(Transpose(Matrix(q)), Matrix(q)) == IDENTITY
  {
    hide Mul, Transpose, Matrix, Apply, SquaredNorm;
    UnitUndone(q, Vec3(1.0, 0.0, 0.0));
    UnitUndone(q, Vec3(0.0, 1.0, 0.0));
    UnitUndone(q, Vec3(0.0, 0.0, 1.0));
    MatrixFromAction(Mul(Transpose(Matrix(q)), Matrix(q)));
  }

  lemma UnitIsOrthonormal(q: Quat)
    requires Unit(q)
    ensures Orthonormal(Matrix(q))
  {
    hide Mul, Matrix, SquaredNorm;
    UnitHalf(q);
    ConjugateNorm(q);
    UnitHalf(Conjugate(q));
    ConjugateTransposes(q);
    ConjugateTransposes(Conjugate(q));
  }

  // (xy + zw)^2 + (xz - yw)^2 == (x^2 + w^2)(y^2 + z^2)
  lemma TwoSquares(x: real, y: real, z: real, w: real)
    ensures Times(Times(x, y) + Times(z, w), Times(x, y) + Times(z, w))
            + Times(Times(x, z) - Times(y, w), Times(x, z) - Times(y, w))
         == Times(Times(x, x) + Times(w, w), Times(y, y) + Times(z, z))
  {
    hide Times;
    SquareOfSum(Times(x, y), Times(z, w));
    SquareOfSum(Times(x, z), Times(y, w));
    TimesInterchange(x, y, z, w);
    TimesInterchange(x, y, x, y);
    TimesInterchange(z, w, z, w);
    TimesInterchange(x, z, x, z);
    TimesInterchange(y, w, y, w);
    TimesSum(Times(x, x), Times(w, w), 0.0, Times(y, y) + Times(z, z));
    TimesSum(Times(y, y), Times(z, z), 0.0, Times(x, x));
    TimesSum(Times(y, y), Times(z, z), 0.0, Times(w, w));
    TimesUnit(Times(y, y) + Times(z, z));
    TimesUnit(Times(x, x));
    TimesUnit(Times(w, w));
    TimesCommutes(Times(w, w), Times(y, y));
    TimesCommutes(Times(w, w), Times(z, z));
  }

  // The squared length of the matrix's first column.
  function ColumnNorm(w: real, x: real, y: real, z: real): real {
    var (p, q, r) := (1.0 - 2.0 * (Times(y, y) + Times(z, z)), Times(x, y) + Times(z, w), Times(x, z) - Times(y, w));
    Times(p, p) + Times(2.0 * q, 2.0 * q) + Times(2.0 * r, 2.0 * r)
  }

  lemma ColumnDefect(w: real, x: real, y: real, z: real)
    ensures ColumnNorm(w, x, y, z) == 1.0 + 4.0 * Times(Times(y, y) + Times(z, z), NormOf(w, x, y, z) - 1.0)
  {
    hide Times;
    var e, f := Times(y, y) + Times(z, z), Times(x, x) + Times(w, w);
    TwoSquares(x, y, z, w);
    TimesCommutes(f, e);
    SquareOfSum(1.0, 2.0 * e);
    TimesUnit(1.0);
    TimesUnit(2.0 * e);
    QuadrupleSquare(e);
    QuadrupleSquare(Times(x, y) + Times(z, w));
    QuadrupleSquare(Times(x, z) - Times(y, w));
    TimesDifference(e + f, 1.0, e);
    TimesSum(e, f, 0.0, e);
    TimesUnit(e);
    assert NormOf(w, x, y, z) == e + f;
  }

  lemma QuadrupleSquare(t: real)
    ensures Times(2.0 * t, 2.0 * t) == 4.0 * Times(t, t)
  {
    hide Times;
    TimesTwo(t);
    SquareOfSum(t, t);
  }

  lemma ColumnNorms(q: Quat)
    requires Orthonormal(Matrix(q))
    ensures ColumnNorm(q.w, q.v.x, q.v.y, q.v.z) == 1.0
    ensures ColumnNorm(q.w, q.v.y, q.v.z, q.v.x) == 1.0
    ensures ColumnNorm(q.w, q.v.z, q.v.x, q.v.y) == 1.0
  {
    hide Times;
    TimesCommutes(q.v.x, q.v.y);
    TimesCommutes(q.v.x, q.v.z);
    TimesCommutes(q.v.y, q.v.z);
  }

  lemma SquaresVanish(x: real, y: real, n: real)
    requires n != 1.0 && Times(Times(x, x) + Times(y, y), n - 1.0) == 0.0
    ensures x == 0.0 && y == 0.0
  {
    hide Times;
    var e := Times(x, x) + Times(y, y);
    SquareSign(x);
    SquareSign(y);
    if x != 0.0 || y != 0.0 {
      TimesPositive(e, n - 1.0);
    }
  }

  // All three columns have length one.
  ghost predicate UnitColumns(q: Quat) {
    && ColumnNorm(q.w, q.v.x, q.v.y, q.v.z) == 1.0
    && ColumnNorm(q.w, q.v.y, q.v.z, q.v.x) == 1.0
    && ColumnNorm(q.w, q.v.z, q.v.x, q.v.y) == 1.0
  }

  lemma UnitColumnsForce(q: Quat)
    requires UnitColumns(q)
    ensures Unit(q) || q.v == ZERO
  {
    hide ColumnNorm, NormOf, Times;
    var (w, x, y, z) := (q.w, q.v.x, q.v.y, q.v.z);
    ColumnDefect(w, x, y, z);
    ColumnDefect(w, y, z, x);
    SquaredNormIs(q);
    NormTurns(w, x, y, z);
    if !Unit(q) {
      SquaresVanish(y, z, SquaredNorm(q));
      SquaresVanish(z, x, SquaredNorm(q));
    }
  }

  // The quaternion formula gives a rotation exactly for unit quaternions and
  // for those without a vector part, where it is the identity.
  lemma {:induction false} OrthonormalWhenUnit(q: Quat)
    ensures Orthonormal(Matrix(q)) <==> Unit(q) || q.v == ZERO
  {
    hide ColumnNorm, NormOf, Mul, Transpose, Matrix, Times;
    if q.v == ZERO {
      ZeroVectorIsIdentity(q);
    } else if Unit(q) {
      UnitIsOrthonormal(q);
    } else if Orthonormal(Matrix(q)) {
      ColumnNorms(q);
      UnitColumnsForce(q);
    }
  }

  // A witness: a half turn about x, doubled, stretches.
  lemma DoubledTurnStretches()
    ensures !Orthonormal(Matrix(Quat(0.0, Vec3(2.0, 0.0, 0.0))))
  {
    hide Matrix, Orthonormal, SquaredNorm;
    var q := Quat(0.0, Vec3(2.0, 0.0, 0.0));
    OrthonormalWhenUnit(q);
    NormOfTwo();
  }

  lemma NormOfTwo()
    ensures SquaredNorm(Quat(0.0, Vec3(2.0, 0.0, 0.0))) == 4.0
  {
    hide Times;
    TimesUnit(0.0);
    TimesTwo(2.0);
  }

  // The columns are the images of the axes.
  lemma ColumnsAreImages(q: Quat)
    ensures var (m, x) := (Matrix(q), Vec3(1.0, 0.0, 0.0));
            Dot(Apply(m, x), Apply(m, x)) == ColumnNorm(q.w, q.v.x, q.v.y, q.v.z)
    ensures var (m, y) := (Matrix(q), Vec3(0.0, 1.0, 0.0));
            Dot(Apply(m, y), Apply(m, y)) == ColumnNorm(q.w, q.v.y, q.v.z, q.v.x)
    ensures var (m, z) := (Matrix(q), Vec3(0.0, 0.0, 1.0));
            Dot(Apply(m, z), Apply(m, z)) == ColumnNorm(q.w, q.v.z, q.v.x, q.v.y)
  {
    hide Times;
    var m := Matrix(q);
    UnitRow(m.a);
    UnitRow(m.b);
    UnitRow(m.c);
    TimesCommutes(q.v.x, q.v.y);
    TimesCommutes(q.v.x, q.v.z);
    TimesCommutes(q.v.y, q.v.z);
  }

  lemma ZeroVectorIsIdentity(q: Quat)
    requires q.v == ZERO
    ensures Matrix(q) == IDENTITY && Orthonormal(Matrix(q))
  {
    hide Times;
    TimesUnit(0.0);
    TimesUnit(1.0);
    TimesUnit(q.w);
  }

  // --------------------------------------------------------------- gravity

  // `q / norm(q)`, with the norm given by what defines it.
  function Normalised(q: Quat, norm: real): Quat
    requires norm > 0.0
  {
    Quat(Over(q.w, norm), Vec3(Over(q.v.x, norm), Over(q.v.y, norm), Over(q.v.z, norm)))
  }

  lemma {:induction false} NormalisedIsUnit(q: Quat, norm: real)
    requires norm > 0.0 && Times(norm, norm) == SquaredNorm(q)
    ensures Unit(Normalised(q, norm))
  {
    hide Times, Over;
    var u := Over(1.0, norm);
    OverScales(q.w, norm);
    OverScales(q.v.x, norm);
    OverScales(q.v.y, norm);
    OverScales(q.v.z, norm);
    OverScales(1.0, norm);
    var uu := Times(u, u);
    TimesInterchange(u, q.w, u, q.w);
    TimesInterchange(u, q.v.x, u, q.v.x);
    TimesInterchange(u, q.v.y, u, q.v.y);
    TimesInterchange(u, q.v.z, u, q.v.z);
    TimesSum(Times(q.v.x, q.v.x), Times(q.v.y, q.v.y), Times(q.v.z, q.v.z), uu);
    TimesSum(Times(q.w, q.w), Dot(q.v, q.v), 0.0, uu);
    TimesUnit(uu);
    TimesInterchange(u, norm, u, norm);
    TimesUnit(1.0);
  }

  const DOWN := Vec3(0.0, 0.0, -1.0)

  // `gravity_from_quaternion`, for a quaternion of nonzero norm.
  function Gravity(q: Quat, norm: real): Vec3
    requires norm > 0.0
  {
    Rotate(Conjugate(Normalised(q, norm)), DOWN)
  }

  // Gravity in the body frame is a unit vector, namely the negated third row of
  // the attitude matrix.
  lemma {:induction false} GravityIsThirdRow(q: Quat, norm: real)
    requires norm > 0.0 && Times(norm, norm) == SquaredNorm(q)
    ensures Gravity(q, norm) == Negate(Matrix(Normalised(q, norm)).c)
    ensures Dot(Gravity(q, norm), Gravity(q, norm)) == 1.0
  {
    hide Times, Matrix, Rotate, Conjugate, Normalised, SquaredNorm;
    var u := Normalised(q, norm);
    NormalisedIsUnit(q, norm);
    RotateIsMatrix(Conjugate(u), DOWN);
    ConjugateTransposes(u);
    ThirdRow(Matrix(u));
    ConjugateNorm(u);
    UnitIsOrthonormal(Conjugate(u));
    OrthonormalKeepsDot(Matrix(Conjugate(u)), DOWN, DOWN);
    DownIsUnit();
  }

  lemma DownIsUnit()
    ensures Dot(DOWN, DOWN) == 1.0
  {
  }

  lemma ThirdRow(m: Mat3)
    ensures Apply(Transpose(m), DOWN) == Negate(m.c)
  {
  }

  // A unit quaternion's rotation keeps dot products, and so lengths and angles.
  lemma {:induction false} RotateKeepsDot(q: Quat, p: Vec3, r: Vec3)
    requires Unit(q)
    ensures Dot(Rotate(q, p), Rotate(q, r)) == Dot(p, r)
  {
    hide Times, Matrix, Rotate, Dot, SquaredNorm;
    UnitIsOrthonormal(q);
    RotateIsMatrix(q, p);
    RotateIsMatrix(q, r);
    OrthonormalKeepsDot(Matrix(q), p, r);
  }
}
