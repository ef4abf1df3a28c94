/**
  The affine transform engine of the PDF printer.

  A transform is a 3×3 matrix in the row-vector convention: a point (x, y)
  is mapped by the homogeneous product [x y 1] · M, so the translation lives
  in the third row. A transform also carries an optional cached inverse,
  filled in by `Reverse`.
*/
module Transforms {
  import opened Wrappers

  /** A 3×3 matrix over the reals, stored row by row. */
  datatype Matrix = Matrix(
    m00: real, m01: real, m02: real,
    m10: real, m11: real, m12: real,
    m20: real, m21: real, m22: real)

  /** A point of the plane. */
  datatype Point = Point(x: real, y: real)

  /** A homogeneous row vector [u v w]. */
  datatype Row = Row(u: real, v: real, w: real)

  /** The transform record: its matrix and, when known, that matrix's inverse. */
  datatype Transform = Transform(matrix: Matrix, inverse: Option<Matrix>)

  /** Entry (i, j) of `m`: row i, column j. */
  function Get(m: Matrix, i: nat, j: nat): real
    requires i < 3 && j < 3
  {
    if i == 0 then (if j == 0 then m.m00 else if j == 1 then m.m01 else m.m02)
    else if i == 1 then (if j == 0 then m.m10 else if j == 1 then m.m11 else m.m12)
    else (if j == 0 then m.m20 else if j == 1 then m.m21 else m.m22)
  }

  /** `m` and `m'` agree everywhere except possibly at the listed positions. */
  ghost predicate SameExcept(m: Matrix, m': Matrix, changed: set<(nat, nat)>)
  {
    forall i: nat, j: nat | i < 3 && j < 3 && (i, j) !in changed :: Get(m', i, j) == Get(m, i, j)
  }

  /** An affine matrix: its third column is (0, 0, 1). */
  predicate IsAffine(m: Matrix)
  {
    m.m02 == 0.0 && m.m12 == 0.0 && m.m22 == 1.0
  }

  /** Row i of `m`. */
  function RowOf(m: Matrix, i: nat): Row
    requires i < 3
  {
    if i == 0 then Row(m.m00, m.m01, m.m02)
    else if i == 1 then Row(m.m10, m.m11, m.m12)
    else Row(m.m20, m.m21, m.m22)
  }

  /** The matrix with the given rows. */
  function FromRows(r0: Row, r1: Row, r2: Row): Matrix
  {
    Matrix(r0.u, r0.v, r0.w,
           r1.u, r1.v, r1.w,
           r2.u, r2.v, r2.w)
  }

  /** The dot product x0·y0 + x1·y1 + x2·y2. */
  function Dot(x0: real, x1: real, x2: real, y0: real, y1: real, y2: real): real
  {
    x0 * y0 + x1 * y1 + x2 * y2
  }

  /** The row-vector product [u v w] · m. */
  function RowTimes(r: Row, m: Matrix): Row
  {
    Row(Dot(r.u, r.v, r.w, m.m00, m.m10, m.m20),
        Dot(r.u, r.v, r.w, m.m01, m.m11, m.m21),
        Dot(r.u, r.v, r.w, m.m02, m.m12, m.m22))
  }

  /** The matrix product a · b: row i of the product is (row i of a) · b. */
  function Mul(a: Matrix, b: Matrix): Matrix
  {
    FromRows(RowTimes(RowOf(a, 0), b), RowTimes(RowOf(a, 1), b), RowTimes(RowOf(a, 2), b))
  }

  /** The diagonal matrix k·I. */
  function Scalar(k: real): Matrix
  {
    Matrix(k, 0.0, 0.0,
           0.0, k, 0.0,
           0.0, 0.0, k)
  }

  const IdentityMatrix: Matrix := Scalar(1.0)

  /** k·x; kept as a function so that scaled entries keep their shape in proofs. */
  function Scale(k: real, x: real): real
  {
    k * x
  }

  function ScaleRow(k: real, r: Row): Row
  {
    Row(Scale(k, r.u), Scale(k, r.v), Scale(k, r.w))
  }

  /** Every entry of `m` multiplied by k. */
  function ScaleBy(k: real, m: Matrix): Matrix
  {
    FromRows(ScaleRow(k, RowOf(m, 0)), ScaleRow(k, RowOf(m, 1)), ScaleRow(k, RowOf(m, 2)))
  }

  /** The 2×2 determinant a·d − b·c. */
  function Cross(a: real, b: real, c: real, d: real): real
  {
    a * d - b * c
  }

  /** The adjugate: the transposed matrix of cofactors. */
  function Adjugate(m: Matrix): Matrix
  {
    Matrix(
      Cross(m.m11, m.m12, m.m21, m.m22), Cross(m.m02, m.m01, m.m22, m.m21), Cross(m.m01, m.m02, m.m11, m.m12),
      Cross(m.m12, m.m10, m.m22, m.m20), Cross(m.m00, m.m02, m.m20, m.m22), Cross(m.m02, m.m00, m.m12, m.m10),
      Cross(m.m10, m.m11, m.m20, m.m21), Cross(m.m01, m.m00, m.m21, m.m20), Cross(m.m00, m.m01, m.m10, m.m11))
  }

  /** The determinant, by cofactor expansion along the first row. */
  function Det(m: Matrix): real
  {
    Dot(m.m00, m.m01, m.m02, Adjugate(m).m00, Adjugate(m).m10, Adjugate(m).m20)
  }

  /** Cofactor expansion: m · adj(m) = adj(m) · m = det(m)·I. */
  lemma MulAdjugate(m: Matrix)
    ensures Mul(m, Adjugate(m)) == Scalar(Det(m))
    ensures Mul(Adjugate(m), m) == Scalar(Det(m))
  {
    CofactorRow0(m.m00, m.m01, m.m02, m.m10, m.m11, m.m12, m.m20, m.m21, m.m22);
    CofactorRow1(m.m00, m.m01, m.m02, m.m10, m.m11, m.m12, m.m20, m.m21, m.m22);
    CofactorRow2(m.m00, m.m01, m.m02, m.m10, m.m11, m.m12, m.m20, m.m21, m.m22);
    CofactorColumn0(m.m00, m.m01, m.m02, m.m10, m.m11, m.m12, m.m20, m.m21, m.m22);
    CofactorColumn1(m.m00, m.m01, m.m02, m.m10, m.m11, m.m12, m.m20, m.m21, m.m22);
    CofactorColumn2(m.m00, m.m01, m.m02, m.m10, m.m11, m.m12, m.m20, m.m21, m.m22);
  }

  lemma CofactorRow0(m00: real, m01: real, m02: real, m10: real, m11: real, m12: real, m20: real, m21: real, m22: real)
    ensures Dot(m00, m01, m02, Cross(m02, m01, m22, m21), Cross(m00, m02, m20, m22), Cross(m01, m00, m21, m20))
         == 0.0
    ensures Dot(m00, m01, m02, Cross(m01, m02, m11, m12), Cross(m02, m00, m12, m10), Cross(m00, m01, m10, m11))
         == 0.0
  {
  }

  lemma CofactorRow1(m00: real, m01: real, m02: real, m10: real, m11: real, m12: real, m20: real, m21: real, m22: real)
    ensures Dot(m10, m11, m12, Cross(m11, m12, m21, m22), Cross(m12, m10, m22, m20), Cross(m10, m11, m20, m21))
         == 0.0
    ensures Dot(m10, m11, m12, Cross(m02, m01, m22, m21), Cross(m00, m02, m20, m22), Cross(m01, m00, m21, m20))
         == Dot(m00, m01, m02, Cross(m11, m12, m21, m22), Cross(m12, m10, m22, m20), Cross(m10, m11, m20, m21))
    ensures Dot(m10, m11, m12, Cross(m01, m02, m11, m12), Cross(m02, m00, m12, m10), Cross(m00, m01, m10, m11))
         == 0.0
  {
  }

  lemma CofactorRow2(m00: real, m01: real, m02: real, m10: real, m11: real, m12: real, m20: real, m21: real, m22: real)
    ensures Dot(m20, m21, m22, Cross(m11, m12, m21, m22), Cross(m12, m10, m22, m20), Cross(m10, m11, m20, m21))
         == 0.0
    ensures Dot(m20, m21, m22, Cross(m02, m01, m22, m21), Cross(m00, m02, m20, m22), Cross(m01, m00, m21, m20))
         == 0.0
    ensures Dot(m20, m21, m22, Cross(m01, m02, m11, m12), Cross(m02, m00, m12, m10), Cross(m00, m01, m10, m11))
         == Dot(m00, m01, m02, Cross(m11, m12, m21, m22), Cross(m12, m10, m22, m20), Cross(m10, m11, m20, m21))
  {
  }

  lemma CofactorColumn0(m00: real, m01: real, m02: real, m10: real, m11: real, m12: real, m20: real, m21: real, m22: real)
    ensures Dot(Cross(m11, m12, m21, m22), Cross(m02, m01, m22, m21), Cross(m01, m02, m11, m12), m00, m10, m20)
         == Dot(m00, m01, m02, Cross(m11, m12, m21, m22), Cross(m12, m10, m22, m20), Cross(m10, m11, m20, m21))
    ensures Dot(Cross(m12, m10, m22, m20), Cross(m00, m02, m20, m22), Cross(m02, m00, m12, m10), m00, m10, m20)
         == 0.0
    ensures Dot(Cross(m10, m11, m20, m21), Cross(m01, m00, m21, m20), Cross(m00, m01, m10, m11), m00, m10, m20)
         == 0.0
  {
  }

  lemma CofactorColumn1(m00: real, m01: real, m02: real, m10: real, m11: real, m12: real, m20: real, m21: real, m22: real)
    ensures Dot(Cross(m11, m12, m21, m22), Cross(m02, m01, m22, m21), Cross(m01, m02, m11, m12), m01, m11, m21)
         == 0.0
    ensures Dot(Cross(m12, m10, m22, m20), Cross(m00, m02, m20, m22), Cross(m02, m00, m12, m10), m01, m11, m21)
         == Dot(m00, m01, m02, Cross(m11, m12, m21, m22), Cross(m12, m10, m22, m20), Cross(m10, m11, m20, m21))
    ensures Dot(Cross(m10, m11, m20, m21), Cross(m01, m00, m21, m20), Cross(m00, m01, m10, m11), m01, m11, m21)
         == 0.0
  {
  }

  lemma CofactorColumn2(m00: real, m01: real, m02: real, m10: real, m11: real, m12: real, m20: real, m21: real, m22: real)
    ensures Dot(Cross(m11, m12, m21, m22), Cross(m02, m01, m22, m21), Cross(m01, m02, m11, m12), m02, m12, m22)
         == 0.0
    ensures Dot(Cross(m12, m10, m22, m20), Cross(m00, m02, m20, m22), Cross(m02, m00, m12, m10), m02, m12, m22)
         == 0.0
    ensures Dot(Cross(m10, m11, m20, m21), Cross(m01, m00, m21, m20), Cross(m00, m01, m10, m11), m02, m12, m22)
         == Dot(m00, m01, m02, Cross(m11, m12, m21, m22), Cross(m12, m10, m22, m20), Cross(m10, m11, m20, m21))
  {
  }

  /**
    The matrix inverse, defined exactly when the determinant is non-zero
    (the closed form adj(m) / det(m)).
  */
  function Inverse(m: Matrix): (r: Matrix)
    requires Det(m) != 0.0
    ensures Mul(m, r) == IdentityMatrix
    ensures Mul(r, m) == IdentityMatrix
  {
    var k := 1.0 / Det(m);
    MulAdjugate(m);
    MulScaleRight(m, k, Adjugate(m));
    MulScaleLeft(k, Adjugate(m), m);
    ScaleScalar(k, Det(m));
    ScaleBy(k, Adjugate(m))
  }

  lemma ScaleScalar(k: real, d: real)
    requires k * d == 1.0
    ensures ScaleBy(k, Scalar(d)) == IdentityMatrix
  {
  }

  // Scalar identities behind the matrix lemmas, each stated on plain reals.

  lemma DotAssociates(x0: real, x1: real, x2: real,
                      a00: real, a01: real, a02: real,
                      a10: real, a11: real, a12: real,
                      a20: real, a21: real, a22: real,
                      b0: real, b1: real, b2: real)
    ensures Dot(x0, x1, x2, Dot(a00, a01, a02, b0, b1, b2), Dot(a10, a11, a12, b0, b1, b2), Dot(a20, a21, a22, b0, b1, b2))
         == Dot(Dot(x0, x1, x2, a00, a10, a20), Dot(x0, x1, x2, a01, a11, a21), Dot(x0, x1, x2, a02, a12, a22), b0, b1, b2)
  {
  }

  lemma DotScales(k: real, x0: real, x1: real, x2: real, y0: real, y1: real, y2: real)
    ensures Dot(x0, x1, x2, Scale(k, y0), Scale(k, y1), Scale(k, y2)) == Scale(k, Dot(x0, x1, x2, y0, y1, y2))
    ensures Dot(Scale(k, x0), Scale(k, x1), Scale(k, x2), y0, y1, y2) == Scale(k, Dot(x0, x1, x2, y0, y1, y2))
  {
  }

  /** The homogeneous product is compatible with the matrix product. */
  lemma RowTimesMul(r: Row, a: Matrix, b: Matrix)
    ensures RowTimes(r, Mul(a, b)) == RowTimes(RowTimes(r, a), b)
  {
    DotAssociates(r.u, r.v, r.w, a.m00, a.m01, a.m02, a.m10, a.m11, a.m12, a.m20, a.m21, a.m22, b.m00, b.m10, b.m20);
    DotAssociates(r.u, r.v, r.w, a.m00, a.m01, a.m02, a.m10, a.m11, a.m12, a.m20, a.m21, a.m22, b.m01, b.m11, b.m21);
    DotAssociates(r.u, r.v, r.w, a.m00, a.m01, a.m02, a.m10, a.m11, a.m12, a.m20, a.m21, a.m22, b.m02, b.m12, b.m22);
  }

  lemma MulAssociative(a: Matrix, b: Matrix, c: Matrix)
    ensures Mul(Mul(a, b), c) == Mul(a, Mul(b, c))
  {
    RowTimesMul(RowOf(a, 0), b, c);
    RowTimesMul(RowOf(a, 1), b, c);
    RowTimesMul(RowOf(a, 2), b, c);
  }

  lemma RowTimesScaleRight(r: Row, k: real, m: Matrix)
    ensures RowTimes(r, ScaleBy(k, m)) == ScaleRow(k, RowTimes(r, m))
  {
    DotScales(k, r.u, r.v, r.w, m.m00, m.m10, m.m20);
    DotScales(k, r.u, r.v, r.w, m.m01, m.m11, m.m21);
    DotScales(k, r.u, r.v, r.w, m.m02, m.m12, m.m22);
  }

  lemma RowTimesScaleLeft(k: real, r: Row, m: Matrix)
    ensures RowTimes(ScaleRow(k, r), m) == ScaleRow(k, RowTimes(r, m))
  {
    DotScales(k, r.u, r.v, r.w, m.m00, m.m10, m.m20);
    DotScales(k, r.u, r.v, r.w, m.m01, m.m11, m.m21);
    DotScales(k, r.u, r.v, r.w, m.m02, m.m12, m.m22);
  }

  lemma MulScaleRight(a: Matrix, k: real, b: Matrix)
    ensures Mul(a, ScaleBy(k, b)) == ScaleBy(k, Mul(a, b))
  {
    RowTimesScaleRight(RowOf(a, 0), k, b);
    RowTimesScaleRight(RowOf(a, 1), k, b);
    RowTimesScaleRight(RowOf(a, 2), k, b);
  }

  lemma MulScaleLeft(k: real, a: Matrix, b: Matrix)
    ensures Mul(ScaleBy(k, a), b) == ScaleBy(k, Mul(a, b))
  {
    RowTimesScaleLeft(k, RowOf(a, 0), b);
    RowTimesScaleLeft(k, RowOf(a, 1), b);
    RowTimesScaleLeft(k, RowOf(a, 2), b);
  }

  /** The neutral transform. */
  function Identity(): (t: Transform)
    ensures t.inverse == None
    ensures forall i: nat, j: nat | i < 3 && j < 3 :: Get(t.matrix, i, j) == if i == j then 1.0 else 0.0
    ensures forall p :: TransformPoint(p, t) == p
  {
    Transform(IdentityMatrix, None)
  }

  /**
    The transform given by the six values of an ItemTransform attribute:
    rows [a b 0], [c d 0], [e f 1].
  */
  function FromValues(a: real, b: real, c: real, d: real, e: real, f: real): (t: Transform)
    ensures t.inverse == None
    ensures IsAffine(t.matrix)
    ensures Get(t.matrix, 0, 0) == a && Get(t.matrix, 0, 1) == b
    ensures Get(t.matrix, 1, 0) == c && Get(t.matrix, 1, 1) == d
    ensures Get(t.matrix, 2, 0) == e && Get(t.matrix, 2, 1) == f
    ensures forall p :: TransformPoint(p, t) == Point(a * p.x + c * p.y + e, b * p.x + d * p.y + f)
  {
    Transform(Matrix(a, b, 0.0,
                     c, d, 0.0,
                     e, f, 1.0), None)
  }

  /** An optional ItemTransform: six values build a transform, anything else is the identity. */
  function FromVec(v: Option<seq<real>>): (t: Transform)
    ensures v.Some? && |v.value| == 6 ==>
      t == FromValues(v.value[0], v.value[1], v.value[2], v.value[3], v.value[4], v.value[5])
    ensures !(v.Some? && |v.value| == 6) ==> t == Identity()
    ensures IsAffine(t.matrix) && t.inverse == None
  {
    match v
    case Some(vs) =>
      if |vs| == 6 then FromValues(vs[0], vs[1], vs[2], vs[3], vs[4], vs[5]) else Identity()
    case None => Identity()
  }

  /**
    [x y 1] · M, keeping the first two coordinates: x' = a·x + c·y + e and
    y' = b·x + d·y + f. The third column and the cached inverse play no part.
  */
  function TransformPoint(p: Point, t: Transform): (r: Point)
    ensures r.x == p.x * Get(t.matrix, 0, 0) + p.y * Get(t.matrix, 1, 0) + Get(t.matrix, 2, 0)
    ensures r.y == p.x * Get(t.matrix, 0, 1) + p.y * Get(t.matrix, 1, 1) + Get(t.matrix, 2, 1)
  {
    var h := RowTimes(Row(p.x, p.y, 1.0), t.matrix);
    Point(h.u, h.v)
  }

  /** The matrix product t1 · t2: apply t1, then t2. The cached inverse is dropped. */
  function Combine(t1: Transform, t2: Transform): (t: Transform)
    ensures t.inverse == None
    ensures IsAffine(t1.matrix) && IsAffine(t2.matrix) ==> IsAffine(t.matrix)
  {
    Transform(Mul(t1.matrix, t2.matrix), None)
  }

  /** `Reverse` can be taken: either the inverse is cached or the matrix is invertible. */
  predicate CanReverse(t: Transform)
  {
    t.inverse.Some? || Det(t.matrix) != 0.0
  }

  /**
    The inverse transform. A cached inverse is returned as the new matrix,
    and in both cases the original matrix becomes the new cached inverse.
  */
  function Reverse(t: Transform): (r: Transform)
    requires CanReverse(t)
    ensures r.inverse == Some(t.matrix)
    ensures t.inverse.Some? ==> r.matrix == t.inverse.value
    ensures t.inverse.None? ==> Mul(t.matrix, r.matrix) == IdentityMatrix && Mul(r.matrix, t.matrix) == IdentityMatrix
  {
    match t.inverse
    case Some(inv) => Transform(inv, Some(t.matrix))
    case None => Transform(Inverse(t.matrix), Some(t.matrix))
  }

  /**
    A point mapped through the reverse of `t`. For an affine transform with
    a consistent cache, `t` maps the result back onto the point.
  */
  function TransformPointReverse(p: Point, t: Transform): (r: Point)
    requires CanReverse(t)
    ensures CacheConsistent(t) && IsAffine(t.matrix) ==> TransformPoint(r, t) == p
  {
    ReverseThenForward(t, p);
    TransformPoint(p, Reverse(t))
  }

  /** A left inverse of an affine matrix is affine. */
  lemma LeftInverseIsAffine(m: Matrix, r: Matrix)
    requires IsAffine(m) && Mul(r, m) == IdentityMatrix
    ensures IsAffine(r)
  {
  }

  /** Mapping a point through the reverse of `t` and then through `t` gives the point back. */
  lemma ReverseThenForward(t: Transform, p: Point)
    requires CanReverse(t)
    ensures CacheConsistent(t) && IsAffine(t.matrix) ==> TransformPoint(TransformPoint(p, Reverse(t)), t) == p
  {
    if CacheConsistent(t) && IsAffine(t.matrix) {
      var r := Reverse(t);
      assert Mul(r.matrix, t.matrix) == IdentityMatrix;
      LeftInverseIsAffine(t.matrix, r.matrix);
      CombineSequential(r, t, p);
      assert Combine(r, t).matrix == IdentityMatrix;
    }
  }

  /** Transforms whose matrices agree in the first two columns map every point alike. */
  lemma TransformPointUsesTwoColumns(t1: Transform, t2: Transform, p: Point)
    requires forall i | 0 <= i < 3 :: Get(t1.matrix, i, 0) == Get(t2.matrix, i, 0) && Get(t1.matrix, i, 1) == Get(t2.matrix, i, 1)
    ensures TransformPoint(p, t1) == TransformPoint(p, t2)
  {
  }

  /** The cached inverse, when present, really is the inverse of the matrix. */
  ghost predicate CacheConsistent(t: Transform)
  {
    t.inverse.Some? ==>
      Mul(t.matrix, t.inverse.value) == IdentityMatrix && Mul(t.inverse.value, t.matrix) == IdentityMatrix
  }

  /** One entry replaced; the cached inverse is dropped. */
  function With(t: Transform, value: real, i: nat, j: nat): (r: Transform)
    requires i < 3 && j < 3
    ensures r.inverse == None
    ensures Get(r.matrix, i, j) == value
    ensures SameExcept(t.matrix, r.matrix, {(i, j)})
    ensures j < 2 && IsAffine(t.matrix) ==> IsAffine(r.matrix)
  {
    var m := t.matrix;
    var m' :=
      if i == 0 then (if j == 0 then m.(m00 := value) else if j == 1 then m.(m01 := value) else m.(m02 := value))
      else if i == 1 then (if j == 0 then m.(m10 := value) else if j == 1 then m.(m11 := value) else m.(m12 := value))
      else (if j == 0 then m.(m20 := value) else if j == 1 then m.(m21 := value) else m.(m22 := value));
    Transform(m', None)
  }

  function WithA(t: Transform, a: real): (r: Transform)
    ensures r.inverse == None && Get(r.matrix, 0, 0) == a
    ensures SameExcept(t.matrix, r.matrix, {(0, 0)})
    ensures IsAffine(t.matrix) ==> IsAffine(r.matrix)
  {
    With(t, a, 0, 0)
  }

  function WithB(t: Transform, b: real): (r: Transform)
    ensures r.inverse == None && Get(r.matrix, 0, 1) == b
    ensures SameExcept(t.matrix, r.matrix, {(0, 1)})
    ensures IsAffine(t.matrix) ==> IsAffine(r.matrix)
  {
    With(t, b, 0, 1)
  }

  function WithC(t: Transform, c: real): (r: Transform)
    ensures r.inverse == None && Get(r.matrix, 1, 0) == c
    ensures SameExcept(t.matrix, r.matrix, {(1, 0)})
    ensures IsAffine(t.matrix) ==> IsAffine(r.matrix)
  {
    With(t, c, 1, 0)
  }

  function WithD(t: Transform, d: real): (r: Transform)
    ensures r.inverse == None && Get(r.matrix, 1, 1) == d
    ensures SameExcept(t.matrix, r.matrix, {(1, 1)})
    ensures IsAffine(t.matrix) ==> IsAffine(r.matrix)
  {
    With(t, d, 1, 1)
  }

  function WithE(t: Transform, e: real): (r: Transform)
    ensures r.inverse == None && Get(r.matrix, 2, 0) == e
    ensures SameExcept(t.matrix, r.matrix, {(2, 0)})
    ensures IsAffine(t.matrix) ==> IsAffine(r.matrix)
  {
    With(t, e, 2, 0)
  }

  function WithF(t: Transform, f: real): (r: Transform)
    ensures r.inverse == None && Get(r.matrix, 2, 1) == f
    ensures SameExcept(t.matrix, r.matrix, {(2, 1)})
    ensures IsAffine(t.matrix) ==> IsAffine(r.matrix)
  {
    With(t, f, 2, 1)
  }

  /** Sets the translation (e, f) to (x, y). */
  function WithTranspose(t: Transform, x: real, y: real): (r: Transform)
    ensures r.inverse == None
    ensures Get(r.matrix, 2, 0) == x && Get(r.matrix, 2, 1) == y
    ensures SameExcept(t.matrix, r.matrix, {(2, 0), (2, 1)})
    ensures IsAffine(t.matrix) ==> IsAffine(r.matrix)
  {
    WithF(WithE(t, x), y)
  }

  /** Sets the diagonal scale entries (a, d) to (sx, sy). */
  function WithScale(t: Transform, sx: real, sy: real): (r: Transform)
    ensures r.inverse == None
    ensures Get(r.matrix, 0, 0) == sx && Get(r.matrix, 1, 1) == sy
    ensures SameExcept(t.matrix, r.matrix, {(0, 0), (1, 1)})
    ensures IsAffine(t.matrix) ==> IsAffine(r.matrix)
  {
    WithD(WithA(t, sx), sy)
  }

  // ---------------------------------------------------------------------
  // Algebra of composition
  // ---------------------------------------------------------------------

  /** The identity is neutral on both sides (on the matrix; `Combine` drops any cache). */
  lemma CombineIdentity(t: Transform)
    ensures Combine(Identity(), t).matrix == t.matrix
    ensures Combine(t, Identity()).matrix == t.matrix
  {
  }

  /** Composition is associative. */
  lemma CombineAssociative(t1: Transform, t2: Transform, t3: Transform)
    ensures Combine(Combine(t1, t2), t3) == Combine(t1, Combine(t2, t3))
  {
    MulAssociative(t1.matrix, t2.matrix, t3.matrix);
  }

  /**
    Applying a combined transform is applying the first, then the second.
    The first must be affine: point application drops the homogeneous
    coordinate, which is 1 only when the third column is (0, 0, 1).
  */
  lemma CombineSequential(t1: Transform, t2: Transform, p: Point)
    requires IsAffine(t1.matrix)
    ensures TransformPoint(p, Combine(t1, t2)) == TransformPoint(TransformPoint(p, t1), t2)
  {
    RowTimesMul(Row(p.x, p.y, 1.0), t1.matrix, t2.matrix);
  }

  /** Reversing twice gives back the original matrix, with the reverse cached. */
  lemma ReverseReverse(t: Transform)
    requires CanReverse(t)
    ensures CanReverse(Reverse(t))
    ensures Reverse(Reverse(t)).matrix == t.matrix
    ensures Reverse(Reverse(t)).inverse == Some(Reverse(t).matrix)
  {
  }

  /** `Reverse` keeps a consistent cache consistent. */
  lemma ReverseCacheConsistent(t: Transform)
    requires CanReverse(t) && CacheConsistent(t)
    ensures CacheConsistent(Reverse(t))
  {
  }

  /** The reverse of an affine transform undoes it on every point. */
  lemma ReverseUndoes(t: Transform, p: Point)
    requires CanReverse(t) && CacheConsistent(t) && IsAffine(t.matrix)
    ensures TransformPoint(TransformPoint(p, t), Reverse(t)) == p
  {
    var r := Reverse(t);
    CombineSequential(t, r, p);
    assert Combine(t, r).matrix == IdentityMatrix;
  }

  /** Mapping a point through `t` and then back through its reverse gives the point back. */
  lemma TransformPointReverseUndoes(t: Transform, p: Point)
    requires CanReverse(t) && CacheConsistent(t) && IsAffine(t.matrix)
    ensures TransformPointReverse(TransformPoint(p, t), t) == p
  {
    ReverseUndoes(t, p);
  }
}
