// Finite sums over the reals and the matrix algebra built on them.
module LinearAlgebra {
  import opened Products

  type Vec = seq<real>
  type Mat = seq<seq<real>>

  // -------------------------------------------------------------------- sums

  function Sum(n: nat, f: int -> real): real {
    if n == 0 then 0.0 else Sum(n - 1, f) + f(n - 1)
  }

  lemma {:induction false} SumSame(n: nat, f: int -> real, g: int -> real)
    requires forall i :: 0 <= i < n ==> f(i) == g(i)
    ensures Sum(n, f) == Sum(n, g)
    decreases n
  {
    if n > 0 {
      SumSame(n - 1, f, g);
    }
  }

  lemma {:induction false} SumPlus(n: nat, f: int -> real, g: int -> real, h: int -> real)
    requires forall i :: 0 <= i < n ==> h(i) == f(i) + g(i)
    ensures Sum(n, h) == Sum(n, f) + Sum(n, g)
    decreases n
  {
    if n > 0 {
      SumPlus(n - 1, f, g, h);
    }
  }

  lemma {:induction false} SumScale(n: nat, c: real, f: int -> real, h: int -> real)
    requires forall i :: 0 <= i < n ==> h(i) == Times(c, f(i))
    ensures Sum(n, h) == Times(c, Sum(n, f))
    decreases n
  {
    hide Times;
    TimesUnit(c);
    if n > 0 {
      SumScale(n - 1, c, f, h);
      TimesDistributes(c, Sum(n - 1, f), f(n - 1));
    }
  }

  lemma {:induction false} SumZero(n: nat, f: int -> real)
    requires forall i :: 0 <= i < n ==> f(i) == 0.0
    ensures Sum(n, f) == 0.0
    decreases n
  {
    if n > 0 {
      SumZero(n - 1, f);
    }
  }

  lemma {:induction false} SumConstant(n: nat, f: int -> real, c: real)
    requires forall i :: 0 <= i < n ==> f(i) == c
    ensures Sum(n, f) == Times(c, n as real)
    decreases n
  {
    hide Times;
    TimesUnit(c);
    if n > 0 {
      SumConstant(n - 1, f, c);
      TimesDistributes(c, (n - 1) as real, 1.0);
    }
  }

  // A sum of nonnegative terms is nonnegative, and zero only term by term.
  lemma {:induction false} SumNonnegative(n: nat, f: int -> real)
    requires forall i :: 0 <= i < n ==> f(i) >= 0.0
    ensures Sum(n, f) >= 0.0
    ensures Sum(n, f) == 0.0 <==> forall i :: 0 <= i < n ==> f(i) == 0.0
    decreases n
  {
    if n > 0 {
      SumNonnegative(n - 1, f);
    }
  }

  // Terms past m vanish.
  lemma {:induction false} SumTruncate(n: nat, m: nat, f: int -> real)
    requires m <= n && forall i :: m <= i < n ==> f(i) == 0.0
    ensures Sum(n, f) == Sum(m, f)
    decreases n
  {
    if n > m {
      SumTruncate(n - 1, m, f);
    }
  }

  // Only term k counts.
  lemma {:induction false} SumOnly(n: nat, k: nat, f: int -> real)
    requires k < n && forall i :: 0 <= i < n && i != k ==> f(i) == 0.0
    ensures Sum(n, f) == f(k)
  {
    SumTruncate(n, k + 1, f);
    SumZero(k, f);
  }

  function RowSum(m: nat, f: (int, int) -> real, i: int): real {
    Sum(m, j => f(i, j))
  }

  function ColumnSum(n: nat, f: (int, int) -> real, j: int): real {
    Sum(n, i => f(i, j))
  }

  // The order of a double sum does not matter.
  lemma {:induction false} SumSwap(n: nat, m: nat, f: (int, int) -> real, rows: int -> real, cols: int -> real)
    requires forall i :: 0 <= i < n ==> rows(i) == RowSum(m, f, i)
    requires forall j :: 0 <= j < m ==> cols(j) == ColumnSum(n, f, j)
    ensures Sum(n, rows) == Sum(m, cols)
    decreases n
  {
    if n == 0 {
      SumZero(m, cols);
    } else {
      var fewer: int -> real := j => ColumnSum(n - 1, f, j);
      var last: int -> real := j => f(n - 1, j);
      SumSwap(n - 1, m, f, rows, fewer);
      forall j | 0 <= j < m
        ensures cols(j) == fewer(j) + last(j)
      {
        SumSame(n - 1, i => f(i, j), i => f(i, j));
      }
      SumPlus(m, fewer, last, cols);
      SumSame(m, last, j => f(n - 1, j));
    }
  }

  // A sum of linear combinations, with the three sums given by value.
  function Blend(a: real, x: real, b: real, y: real, z: real): real {
    Times(a, x) + Times(b, y) + z
  }

  lemma SumBlend(d: nat, a: real, f: int -> real, sf: real, b: real, g: int -> real, sg: real,
                 h: int -> real, sh: real, all: int -> real)
    requires sf == Sum(d, f) && sg == Sum(d, g) && sh == Sum(d, h)
    requires forall k :: 0 <= k < d ==> all(k) == Blend(a, f(k), b, g(k), h(k))
    ensures Sum(d, all) == Blend(a, sf, b, sg, sh)
  {
    hide Times;
    var af: int -> real := k => Times(a, f(k));
    var bg: int -> real := k => Times(b, g(k));
    var both: int -> real := k => af(k) + bg(k);
    SumScale(d, a, f, af);
    SumScale(d, b, g, bg);
    SumPlus(d, af, bg, both);
    SumPlus(d, both, h, all);
  }

  // ----------------------------------------------------------------- vectors

  // Coordinates and entries, read as total functions.
  function At(v: Vec, i: int): real {
    if 0 <= i < |v| then v[i] else 0.0
  }

  function Entry(a: Mat, i: int, j: int): real {
    if 0 <= i < |a| then At(a[i], j) else 0.0
  }

  predicate Square(a: Mat, d: nat) {
    |a| == d && forall i :: 0 <= i < d ==> |a[i]| == d
  }

  function Dot(d: nat, v: Vec, w: Vec): real {
    Sum(d, i => Times(At(v, i), At(w, i)))
  }

  function Norm2(d: nat, v: Vec): real {
    Dot(d, v, v)
  }

  // Row i of a against v.
  function RowTimes(d: nat, a: Mat, v: Vec, i: int): real {
    Sum(d, j => Times(Entry(a, i, j), At(v, j)))
  }

  // v against column j of a.
  function TimesColumn(d: nat, v: Vec, a: Mat, j: int): real {
    Sum(d, i => Times(Entry(a, i, j), At(v, i)))
  }

  function MatVec(d: nat, a: Mat, v: Vec): (r: Vec)
    ensures |r| == d
  {
    seq(d, i requires 0 <= i < d => RowTimes(d, a, v, i))
  }

  // The row vector v @ a, which is also a's transpose against v.
  function VecMat(d: nat, v: Vec, a: Mat): (r: Vec)
    ensures |r| == d
  {
    seq(d, j requires 0 <= j < d => TimesColumn(d, v, a, j))
  }

  // Row i of a times column k of b, and of a's own transpose.
  function ProductAt(d: nat, a: Mat, b: Mat, i: int, k: int): real {
    Sum(d, j => Times(Entry(a, i, j), Entry(b, j, k)))
  }

  function GramAt(d: nat, l: Mat, i: int, k: int): real {
    Sum(d, j => Times(Entry(l, i, j), Entry(l, k, j)))
  }

  ghost predicate IsIdentityProduct(d: nat, a: Mat, b: Mat) {
    forall i, k :: 0 <= i < d && 0 <= k < d ==> ProductAt(d, a, b, i, k) == if i == k then 1.0 else 0.0
  }

  // What `inv` promises.
  ghost predicate IsInverse(d: nat, c: Mat, p: Mat) {
    IsIdentityProduct(d, c, p) && IsIdentityProduct(d, p, c)
  }

  // What `cholesky` promises.
  ghost predicate IsCholesky(d: nat, c: Mat, l: Mat) {
    && Square(l, d)
    && (forall i, j :: 0 <= i < j < d ==> Entry(l, i, j) == 0.0)
    && (forall i :: 0 <= i < d ==> Entry(l, i, i) > 0.0)
    && (forall i, k :: 0 <= i < d && 0 <= k < d ==> GramAt(d, l, i, k) == Entry(c, i, k))
  }

  // ------------------------------------------------------ triangular systems

  // Forward substitution leaves no choice.
  lemma {:induction false} TriangularUnique(d: nat, c: Mat, l: Mat, y: Vec, w: Vec, i: nat)
    requires IsCholesky(d, c, l) && MatVec(d, l, y) == MatVec(d, l, w) && i < d
    ensures At(y, i) == At(w, i)
    decreases i
  {
    hide Times;
    var f: int -> real := j => Times(Entry(l, i, j), At(y, j));
    var g: int -> real := j => Times(Entry(l, i, j), At(w, j));
    forall j | 0 <= j < i
      ensures f(j) == g(j)
    {
      TriangularUnique(d, c, l, y, w, j);
    }
    forall j | i < j < d
      ensures f(j) == 0.0 && g(j) == 0.0
    {
      TimesUnit(At(y, j));
      TimesUnit(At(w, j));
    }
    SumSame(i, f, g);
    SumTruncate(d, i + 1, f);
    SumTruncate(d, i + 1, g);
    assert MatVec(d, l, y)[i] == Sum(d, f) && MatVec(d, l, w)[i] == Sum(d, g);
    TimesCancels(Entry(l, i, i), At(y, i), At(w, i));
  }

  // Row and column sums of a table of triple products.
  lemma RowOfTriples(d: nat, f: (int, int) -> real, i: int, w: real, g: int -> real)
    requires forall j :: 0 <= j < d ==> f(i, j) == Times(w, g(j))
    ensures RowSum(d, f, i) == Times(w, Sum(d, g))
  {
    SumScale(d, w, g, j => f(i, j));
  }

  lemma ColumnOfTriples(d: nat, f: (int, int) -> real, j: int, w: real, g: int -> real)
    requires forall i :: 0 <= i < d ==> f(i, j) == Times(w, g(i))
    ensures ColumnSum(d, f, j) == Times(w, Sum(d, g))
  {
    SumScale(d, w, g, i => f(i, j));
  }

  // L (L^T z) is C z.
  lemma {:induction false} FactorTwice(d: nat, c: Mat, l: Mat, z: Vec, i: nat)
    requires IsCholesky(d, c, l) && i < d
    ensures RowTimes(d, l, VecMat(d, z, l), i) == RowTimes(d, c, z, i)
  {
    hide Times;
    var f: (int, int) -> real := (j, k) => Times(Entry(l, i, j), Times(Entry(l, k, j), At(z, k)));
    var rows: int -> real := j => Times(Entry(l, i, j), At(VecMat(d, z, l), j));
    var cols: int -> real := k => Times(Entry(c, i, k), At(z, k));
    forall j | 0 <= j < d
      ensures rows(j) == RowSum(d, f, j)
    {
      RowOfTriples(d, f, j, Entry(l, i, j), k => Times(Entry(l, k, j), At(z, k)));
    }
    forall k | 0 <= k < d
      ensures cols(k) == ColumnSum(d, f, k)
    {
      FactorColumn(d, l, z, i, k, f);
      assert GramAt(d, l, i, k) == Entry(c, i, k);
    }
    SumSwap(d, d, f, rows, cols);
    SumSame(d, rows, j => Times(Entry(l, i, j), At(VecMat(d, z, l), j)));
    SumSame(d, cols, k => Times(Entry(c, i, k), At(z, k)));
  }

  lemma FactorColumn(d: nat, l: Mat, z: Vec, i: nat, k: nat, f: (int, int) -> real)
    requires forall j :: 0 <= j < d ==> f(j, k) == Times(Entry(l, i, j), Times(Entry(l, k, j), At(z, k)))
    ensures ColumnSum(d, f, k) == Times(GramAt(d, l, i, k), At(z, k))
  {
    hide Times;
    var g: int -> real := j => Times(Entry(l, i, j), Entry(l, k, j));
    forall j | 0 <= j < d
      ensures f(j, k) == Times(At(z, k), g(j))
    {
      TimesRegroups(Entry(l, i, j), Entry(l, k, j), At(z, k));
    }
    ColumnOfTriples(d, f, k, At(z, k), g);
    SumSame(d, g, j => Times(Entry(l, i, j), Entry(l, k, j)));
    TimesCommutes(At(z, k), GramAt(d, l, i, k));
  }

  lemma CholeskySymmetric(d: nat, c: Mat, l: Mat, i: nat, k: nat)
    requires IsCholesky(d, c, l) && i < d && k < d
    ensures Entry(c, i, k) == Entry(c, k, i)
  {
    assert GramAt(d, l, i, k) == Entry(c, i, k) && GramAt(d, l, k, i) == Entry(c, k, i);
    SumSame(d, j => Times(Entry(l, i, j), Entry(l, k, j)), j => Times(Entry(l, k, j), Entry(l, i, j)));
  }

  // C (v P)^T is v, because C is symmetric and P C is the identity.
  lemma {:induction false} PrecisionUndone(d: nat, c: Mat, l: Mat, p: Mat, v: Vec, i: nat)
    requires IsCholesky(d, c, l) && IsIdentityProduct(d, p, c) && |v| == d && i < d
    ensures RowTimes(d, c, VecMat(d, v, p), i) == v[i]
  {
    hide Times;
    var z := VecMat(d, v, p);
    var f: (int, int) -> real := (k, m) => Times(Entry(c, k, i), Times(Entry(p, m, k), At(v, m)));
    var rows: int -> real := k => Times(Entry(c, i, k), At(z, k));
    var cols: int -> real := m => if m == i then v[i] else 0.0;
    forall k | 0 <= k < d
      ensures rows(k) == RowSum(d, f, k)
    {
      CholeskySymmetric(d, c, l, i, k);
      RowOfTriples(d, f, k, Entry(c, k, i), m => Times(Entry(p, m, k), At(v, m)));
    }
    forall m | 0 <= m < d
      ensures cols(m) == ColumnSum(d, f, m)
    {
      PrecisionColumn(d, c, p, v, m, i, f);
      assert ProductAt(d, p, c, m, i) == if m == i then 1.0 else 0.0;
      TimesUnit(At(v, m));
    }
    SumSwap(d, d, f, rows, cols);
    SumOnly(d, i, cols);
    SumSame(d, rows, k => Times(Entry(c, i, k), At(z, k)));
  }

  lemma PrecisionColumn(d: nat, c: Mat, p: Mat, v: Vec, m: nat, i: nat, f: (int, int) -> real)
    requires forall k :: 0 <= k < d ==> f(k, m) == Times(Entry(c, k, i), Times(Entry(p, m, k), At(v, m)))
    ensures ColumnSum(d, f, m) == Times(At(v, m), ProductAt(d, p, c, m, i))
  {
    hide Times;
    var g: int -> real := k => Times(Entry(p, m, k), Entry(c, k, i));
    forall k | 0 <= k < d
      ensures f(k, m) == Times(At(v, m), g(k))
    {
      TimesRegroups(Entry(c, k, i), Entry(p, m, k), At(v, m));
      TimesCommutes(Entry(c, k, i), Entry(p, m, k));
    }
    ColumnOfTriples(d, f, m, At(v, m), g);
    SumSame(d, g, k => Times(Entry(p, m, k), Entry(c, k, i)));
  }

  // (L y) . z is y . (L^T z).
  lemma {:induction false} Adjoint(d: nat, l: Mat, y: Vec, z: Vec)
    ensures Dot(d, MatVec(d, l, y), z) == Dot(d, y, VecMat(d, z, l))
  {
    hide Times;
    var f: (int, int) -> real := (i, j) => Times(At(z, i), Times(Entry(l, i, j), At(y, j)));
    var rows: int -> real := i => Times(At(MatVec(d, l, y), i), At(z, i));
    var cols: int -> real := j => Times(At(y, j), At(VecMat(d, z, l), j));
    forall i | 0 <= i < d
      ensures rows(i) == RowSum(d, f, i)
    {
      RowOfTriples(d, f, i, At(z, i), j => Times(Entry(l, i, j), At(y, j)));
      TimesCommutes(At(z, i), RowTimes(d, l, y, i));
    }
    forall j | 0 <= j < d
      ensures cols(j) == ColumnSum(d, f, j)
    {
      var g: int -> real := i => Times(Entry(l, i, j), At(z, i));
      forall i | 0 <= i < d
        ensures f(i, j) == Times(At(y, j), g(i))
      {
        TimesRegroups(At(z, i), Entry(l, i, j), At(y, j));
        TimesCommutes(At(z, i), Entry(l, i, j));
      }
      ColumnOfTriples(d, f, j, At(y, j), g);
      SumSame(d, g, i => Times(Entry(l, i, j), At(z, i)));
    }
    SumSwap(d, d, f, rows, cols);
    SumSame(d, rows, i => Times(At(MatVec(d, l, y), i), At(z, i)));
    SumSame(d, cols, j => Times(At(y, j), At(VecMat(d, z, l), j)));
  }

  // Back substitution: the transposed factor takes only zero to zero.
  lemma {:induction false} TransposeTakesOnlyZero(d: nat, c: Mat, l: Mat, v: Vec, i: nat)
    requires IsCholesky(d, c, l) && i < d
    requires forall j :: 0 <= j < d ==> TimesColumn(d, v, l, j) == 0.0
    ensures At(v, i) == 0.0
    decreases d - i
  {
    hide Times;
    var f: int -> real := k => Times(Entry(l, k, i), At(v, k));
    forall k | 0 <= k < d && k != i
      ensures f(k) == 0.0
    {
      TimesUnit(At(v, k));
      TimesUnit(Entry(l, k, i));
      if k > i {
        TransposeTakesOnlyZero(d, c, l, v, k);
      }
    }
    SumOnly(d, i, f);
    SumSame(d, f, k => Times(Entry(l, k, i), At(v, k)));
    assert TimesColumn(d, v, l, i) == f(i);
    TimesUnit(Entry(l, i, i));
    TimesCancels(Entry(l, i, i), At(v, i), 0.0);
  }

  // v . (v P) is |y|^2 for the y with L y = v: the precision form and the
  // triangular-solve form of the same quadratic.
  lemma {:induction false} QuadraticFormIsNorm(d: nat, c: Mat, l: Mat, p: Mat, v: Vec, y: Vec)
    requires IsCholesky(d, c, l) && IsInverse(d, c, p)
    requires |v| == |y| == d && MatVec(d, l, y) == v
    ensures Dot(d, v, VecMat(d, v, p)) == Norm2(d, y)
  {
    hide Times;
    var z := VecMat(d, v, p);
    var t := VecMat(d, z, l);
    forall i | 0 <= i < d
      ensures MatVec(d, l, t)[i] == v[i]
    {
      FactorTwice(d, c, l, z, i);
      PrecisionUndone(d, c, l, p, v, i);
    }
    forall i | 0 <= i < d
      ensures t[i] == y[i]
    {
      TriangularUnique(d, c, l, t, y, i);
    }
    assert t == y;
    Adjoint(d, l, y, z);
  }
}
