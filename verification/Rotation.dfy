/** The direction cosine matrix of a quaternion (orientation_calc.c) and the change of frame
    built on it (position_estimator.c), over the reals. */
module Rotation {
  datatype Vector = Vector(x: real, y: real, z: real)

  datatype Quaternion = Quaternion(q0: real, q1: real, q2: real, q3: real)

  /** Three rows. */
  datatype Matrix = Matrix(r0: Vector, r1: Vector, r2: Vector)

  function Dot(a: Vector, b: Vector): real {
    a.x * b.x + a.y * b.y + a.z * b.z
  }

  function Cross(a: Vector, b: Vector): Vector {
    Vector(a.y * b.z - a.z * b.y, a.z * b.x - a.x * b.z, a.x * b.y - a.y * b.x)
  }

  function Determinant(m: Matrix): real {
    Dot(m.r2, Cross(m.r0, m.r1))
  }

  function Times(m: Matrix, v: Vector): Vector {
    Vector(Dot(m.r0, v), Dot(m.r1, v), Dot(m.r2, v))
  }

  function Norm(q: Quaternion): real {
    q.q0 * q.q0 + q.q1 * q.q1 + q.q2 * q.q2 + q.q3 * q.q3
  }

  /** A product, kept behind a name so that the solver multiplies nothing out except in the
      polynomial identities. */
  function Mul(a: real, b: real): real {
    a * b
  }

  /** orientation_quaternion_to_dcm. */
  function Dcm(q: Quaternion): Matrix {
    var (q0, q1, q2, q3) := (q.q0, q.q1, q.q2, q.q3);
    Matrix(
      Vector(1.0 - 2.0 * (Mul(q2, q2) + Mul(q3, q3)),
             2.0 * (Mul(q1, q2) - Mul(q0, q3)),
             2.0 * (Mul(q1, q3) + Mul(q0, q2))),
      Vector(2.0 * (Mul(q1, q2) + Mul(q0, q3)),
             1.0 - 2.0 * (Mul(q1, q1) + Mul(q3, q3)),
             2.0 * (Mul(q2, q3) - Mul(q0, q1))),
      Vector(2.0 * (Mul(q1, q3) - Mul(q0, q2)),
             2.0 * (Mul(q2, q3) + Mul(q0, q1)),
             1.0 - 2.0 * (Mul(q1, q1) + Mul(q2, q2))))
  }

  function Turned(v: Vector): Vector {
    Vector(v.y, v.z, v.x)
  }

  function TurnedBack(v: Vector): Vector {
    Vector(v.z, v.x, v.y)
  }

  predicate Orthonormal(m: Matrix) {
    && Dot(m.r0, m.r0) == 1.0 && Dot(m.r1, m.r1) == 1.0 && Dot(m.r2, m.r2) == 1.0
    && Dot(m.r0, m.r1) == 0.0 && Dot(m.r0, m.r2) == 0.0 && Dot(m.r1, m.r2) == 0.0
  }

  function Transpose(m: Matrix): Matrix {
    Matrix(Vector(m.r0.x, m.r1.x, m.r2.x), Vector(m.r0.y, m.r1.y, m.r2.y), Vector(m.r0.z, m.r1.z, m.r2.z))
  }

  function Conjugate(q: Quaternion): Quaternion {
    Quaternion(q.q0, -q.q1, -q.q2, -q.q3)
  }

  // ---------- Products of rows ----------
  // The three rows, and the three pairs of rows, differ only by turning the axes.

  /** A row whose own axis has the quaternion's entry `x`, and the row after it. */
  predicate IsRow(r: Vector, w: real, x: real, y: real, z: real) {
    && r.x == 1.0 - 2.0 * (Mul(y, y) + Mul(z, z))
    && r.y == 2.0 * (Mul(x, y) - Mul(w, z))
    && r.z == 2.0 * (Mul(z, x) + Mul(w, y))
  }

  predicate IsNextRow(r: Vector, w: real, x: real, y: real, z: real) {
    && r.x == 2.0 * (Mul(x, y) + Mul(w, z))
    && r.y == 1.0 - 2.0 * (Mul(x, x) + Mul(z, z))
    && r.z == 2.0 * (Mul(y, z) - Mul(w, x))
  }

  lemma Commutes(a: real, b: real)
    ensures Mul(a, b) == Mul(b, a)
  {
  }

  lemma DcmRows(q: Quaternion)
    ensures var m := Dcm(q);
      && IsRow(m.r0, q.q0, q.q1, q.q2, q.q3) && IsNextRow(m.r1, q.q0, q.q1, q.q2, q.q3)
      && IsRow(Turned(m.r1), q.q0, q.q2, q.q3, q.q1) && IsNextRow(Turned(m.r2), q.q0, q.q2, q.q3, q.q1)
      && IsRow(TurnedBack(m.r2), q.q0, q.q3, q.q1, q.q2) && IsNextRow(TurnedBack(m.r0), q.q0, q.q3, q.q1, q.q2)
  {
    hide Mul;
    Commutes(q.q1, q.q3);
  }

  function NormLessOne(w: real, x: real, y: real, z: real): real {
    Mul(w, w) + Mul(x, x) + Mul(y, y) + Mul(z, z) - 1.0
  }

  /** How far a row is from unit length. */
  lemma RowSquare(r: Vector, w: real, x: real, y: real, z: real)
    requires IsRow(r, w, x, y, z)
    ensures Dot(r, r) == 1.0 + 4.0 * Mul(Mul(y, y) + Mul(z, z), NormLessOne(w, x, y, z))
  {
    assert r == Vector(1.0 - 2.0 * (y * y + z * z), 2.0 * (x * y - w * z), 2.0 * (x * z + w * y));
    hide IsRow;
    SquareIdentity(w, x, y, z, r);
  }

  lemma SquareIdentity(w: real, x: real, y: real, z: real, r: Vector)
    requires r == Vector(1.0 - 2.0 * (y * y + z * z), 2.0 * (x * y - w * z), 2.0 * (x * z + w * y))
    ensures Dot(r, r) == 1.0 + 4.0 * Mul(Mul(y, y) + Mul(z, z), NormLessOne(w, x, y, z))
  {
  }

  /** How far two rows are from being perpendicular. */
  lemma RowProduct(r: Vector, s: Vector, w: real, x: real, y: real, z: real)
    requires IsRow(r, w, x, y, z) && IsNextRow(s, w, x, y, z)
    ensures Dot(r, s) == -4.0 * Mul(Mul(x, y), NormLessOne(w, x, y, z))
  {
    assert r == Vector(1.0 - 2.0 * (y * y + z * z), 2.0 * (x * y - w * z), 2.0 * (x * z + w * y));
    assert s == Vector(2.0 * (x * y + w * z), 1.0 - 2.0 * (x * x + z * z), 2.0 * (y * z - w * x));
    hide IsRow, IsNextRow;
    ProductIdentity(w, x, y, z, r, s);
  }

  lemma ProductIdentity(w: real, x: real, y: real, z: real, r: Vector, s: Vector)
    requires r == Vector(1.0 - 2.0 * (y * y + z * z), 2.0 * (x * y - w * z), 2.0 * (x * z + w * y))
    requires s == Vector(2.0 * (x * y + w * z), 1.0 - 2.0 * (x * x + z * z), 2.0 * (y * z - w * x))
    ensures Dot(r, s) == -4.0 * Mul(Mul(x, y), NormLessOne(w, x, y, z))
  {
    hide Dot, Mul, NormLessOne;
    DotIs(r, s, 1.0 - 2.0 * (y * y + z * z), 2.0 * (x * y - w * z), 2.0 * (x * z + w * y),
      2.0 * (x * y + w * z), 1.0 - 2.0 * (x * x + z * z), 2.0 * (y * z - w * x));
    NormLessOneIs(w, x, y, z);
    MulIs(x, y);
    MulIs(x * y, w * w + x * x + y * y + z * z - 1.0);
  }

  lemma DotIs(a: Vector, b: Vector, x: real, y: real, z: real, x': real, y': real, z': real)
    requires a == Vector(x, y, z) && b == Vector(x', y', z')
    ensures Dot(a, b) == x * x' + y * y' + z * z'
  {
  }

  lemma NormLessOneIs(w: real, x: real, y: real, z: real)
    ensures NormLessOne(w, x, y, z) == w * w + x * x + y * y + z * z - 1.0
  {
  }

  lemma MulIs(a: real, b: real)
    ensures Mul(a, b) == a * b
  {
  }

  lemma NormIs(q: Quaternion)
    ensures var n := Norm(q) - 1.0;
      && n == NormLessOne(q.q0, q.q1, q.q2, q.q3)
      && n == NormLessOne(q.q0, q.q2, q.q3, q.q1)
      && n == NormLessOne(q.q0, q.q3, q.q1, q.q2)
  {
  }

  lemma DotTurned(a: Vector, b: Vector)
    ensures Dot(Turned(a), Turned(b)) == Dot(TurnedBack(a), TurnedBack(b)) == Dot(a, b)
  {
  }

  /** The rows' lengths and angles, for every quaternion. */
  lemma RowDots(q: Quaternion)
    ensures var (m, n) := (Dcm(q), Norm(q) - 1.0);
      && Dot(m.r0, m.r0) == 1.0 + 4.0 * Mul(Mul(q.q2, q.q2) + Mul(q.q3, q.q3), n)
      && Dot(m.r1, m.r1) == 1.0 + 4.0 * Mul(Mul(q.q3, q.q3) + Mul(q.q1, q.q1), n)
      && Dot(m.r2, m.r2) == 1.0 + 4.0 * Mul(Mul(q.q1, q.q1) + Mul(q.q2, q.q2), n)
      && Dot(m.r0, m.r1) == -4.0 * Mul(Mul(q.q1, q.q2), n)
      && Dot(m.r1, m.r2) == -4.0 * Mul(Mul(q.q2, q.q3), n)
      && Dot(m.r2, m.r0) == -4.0 * Mul(Mul(q.q3, q.q1), n)
  {
    hide *;
    var m := Dcm(q);
    DcmRows(q);
    NormIs(q);
    DotTurned(m.r1, m.r1);
    DotTurned(m.r2, m.r2);
    DotTurned(m.r1, m.r2);
    DotTurned(m.r2, m.r0);
    RowSquare(m.r0, q.q0, q.q1, q.q2, q.q3);
    RowSquare(Turned(m.r1), q.q0, q.q2, q.q3, q.q1);
    RowSquare(TurnedBack(m.r2), q.q0, q.q3, q.q1, q.q2);
    RowProduct(m.r0, m.r1, q.q0, q.q1, q.q2, q.q3);
    RowProduct(Turned(m.r1), Turned(m.r2), q.q0, q.q2, q.q3, q.q1);
    RowProduct(TurnedBack(m.r2), TurnedBack(m.r0), q.q0, q.q3, q.q1, q.q2);
  }

  lemma DotSymmetric(a: Vector, b: Vector)
    ensures Dot(a, b) == Dot(b, a)
  {
  }

  lemma MulZero(k: real, n: real)
    ensures Mul(k, n) == 0.0 <==> k == 0.0 || n == 0.0
    ensures Mul(k, k) >= 0.0
  {
  }

  /** Exactly the unit quaternions, and those with no vector part, give orthonormal rows. */
  lemma OrthonormalIff(q: Quaternion)
    ensures Orthonormal(Dcm(q)) <==> Norm(q) == 1.0 || q.q1 == q.q2 == q.q3 == 0.0
  {
    hide Dcm, Dot, Norm, Mul;
    var (m, n) := (Dcm(q), Norm(q) - 1.0);
    var (a, b, c) := (Mul(q.q1, q.q1), Mul(q.q2, q.q2), Mul(q.q3, q.q3));
    RowDots(q);
    DotSymmetric(m.r0, m.r2);
    MulZero(q.q1, q.q1);
    MulZero(q.q2, q.q2);
    MulZero(q.q3, q.q3);
    MulZero(b + c, n);
    MulZero(c + a, n);
    MulZero(a + b, n);
    MulZero(Mul(q.q1, q.q2), n);
    MulZero(Mul(q.q2, q.q3), n);
    MulZero(Mul(q.q3, q.q1), n);
    MulZero(q.q1, q.q2);
    MulZero(q.q2, q.q3);
    MulZero(q.q3, q.q1);
  }

  // ---------- The third row is the cross product of the others ----------

  /** What differs by a multiple of an error is equal when there is no error. */
  lemma NoError(a: real, b: real, k: real, n: real)
    requires n == 0.0 && a == b + k * n
    ensures a == b
  {
  }

  lemma CrossFirst(w: real, x: real, y: real, z: real)
    requires w * w + x * x + y * y + z * z - 1.0 == 0.0
    ensures Mul(2.0 * (x * y - w * z), 2.0 * (y * z - w * x)) - Mul(2.0 * (x * z + w * y), 1.0 - 2.0 * (x * x + z * z))
      == 2.0 * (x * z - w * y)
  {
    hide Mul;
    NoError((2.0 * (x * y - w * z)) * (2.0 * (y * z - w * x)) - (2.0 * (x * z + w * y)) * (1.0 - 2.0 * (x * x + z * z)),
      2.0 * (x * z - w * y), 4.0 * (x * z), w * w + x * x + y * y + z * z - 1.0);
    MulIs(2.0 * (x * y - w * z), 2.0 * (y * z - w * x));
    MulIs(2.0 * (x * z + w * y), 1.0 - 2.0 * (x * x + z * z));
  }

  lemma CrossSecond(w: real, x: real, y: real, z: real)
    requires w * w + x * x + y * y + z * z - 1.0 == 0.0
    ensures Mul(2.0 * (x * z + w * y), 2.0 * (x * y + w * z)) - Mul(1.0 - 2.0 * (y * y + z * z), 2.0 * (y * z - w * x))
      == 2.0 * (y * z + w * x)
  {
    hide Mul;
    NoError((2.0 * (x * z + w * y)) * (2.0 * (x * y + w * z)) - (1.0 - 2.0 * (y * y + z * z)) * (2.0 * (y * z - w * x)),
      2.0 * (y * z + w * x), 4.0 * (y * z), w * w + x * x + y * y + z * z - 1.0);
    MulIs(2.0 * (x * z + w * y), 2.0 * (x * y + w * z));
    MulIs(1.0 - 2.0 * (y * y + z * z), 2.0 * (y * z - w * x));
  }

  lemma CrossThird(w: real, x: real, y: real, z: real)
    requires w * w + x * x + y * y + z * z - 1.0 == 0.0
    ensures Mul(1.0 - 2.0 * (y * y + z * z), 1.0 - 2.0 * (x * x + z * z))
      - Mul(2.0 * (x * y - w * z), 2.0 * (x * y + w * z))
      == 1.0 - 2.0 * (x * x + y * y)
  {
    hide Mul;
    NoError((1.0 - 2.0 * (y * y + z * z)) * (1.0 - 2.0 * (x * x + z * z))
        - (2.0 * (x * y - w * z)) * (2.0 * (x * y + w * z)),
      1.0 - 2.0 * (x * x + y * y), 4.0 * (z * z), w * w + x * x + y * y + z * z - 1.0);
    MulIs(1.0 - 2.0 * (y * y + z * z), 1.0 - 2.0 * (x * x + z * z));
    MulIs(2.0 * (x * y - w * z), 2.0 * (x * y + w * z));
  }

  lemma CrossIs(a: Vector, b: Vector)
    ensures Cross(a, b) ==
      Vector(Mul(a.y, b.z) - Mul(a.z, b.y), Mul(a.z, b.x) - Mul(a.x, b.z), Mul(a.x, b.y) - Mul(a.y, b.x))
  {
  }

  lemma CrossIdentity(w: real, x: real, y: real, z: real, r: Vector, s: Vector)
    requires w * w + x * x + y * y + z * z - 1.0 == 0.0
    requires r == Vector(1.0 - 2.0 * (y * y + z * z), 2.0 * (x * y - w * z), 2.0 * (x * z + w * y))
    requires s == Vector(2.0 * (x * y + w * z), 1.0 - 2.0 * (x * x + z * z), 2.0 * (y * z - w * x))
    ensures Cross(r, s) == Vector(2.0 * (x * z - w * y), 2.0 * (y * z + w * x), 1.0 - 2.0 * (x * x + y * y))
  {
    hide Cross, Mul;
    CrossIs(r, s);
    CrossFirst(w, x, y, z);
    CrossSecond(w, x, y, z);
    CrossThird(w, x, y, z);
  }

  /** The third row of a unit quaternion's matrix completes a right-handed frame. */
  lemma ThirdRow(q: Quaternion)
    requires Norm(q) == 1.0
    ensures Dcm(q).r2 == Cross(Dcm(q).r0, Dcm(q).r1)
  {
    var m := Dcm(q);
    ThirdRowOf(m.r0, m.r1, m.r2, q.q0, q.q1, q.q2, q.q3) by {
      hide Mul;
      DcmRows(q);
      NormIs(q);
    }
  }

  lemma ThirdRowOf(r: Vector, s: Vector, t: Vector, w: real, x: real, y: real, z: real)
    requires NormLessOne(w, x, y, z) == 0.0
    requires IsRow(r, w, x, y, z) && IsNextRow(s, w, x, y, z) && IsRow(TurnedBack(t), w, z, x, y)
    ensures t == Cross(r, s)
  {
    hide Cross;
    assert r == Vector(1.0 - 2.0 * (y * y + z * z), 2.0 * (x * y - w * z), 2.0 * (x * z + w * y));
    assert s == Vector(2.0 * (x * y + w * z), 1.0 - 2.0 * (x * x + z * z), 2.0 * (y * z - w * x));
    assert t == Vector(2.0 * (x * z - w * y), 2.0 * (y * z + w * x), 1.0 - 2.0 * (x * x + y * y));
    hide IsRow, IsNextRow;
    CrossIdentity(w, x, y, z, r, s);
  }

  // ---------- Lengths and angles ----------

  lemma TransposeIsConjugate(q: Quaternion)
    ensures Transpose(Dcm(q)) == Dcm(Conjugate(q)) && Norm(Conjugate(q)) == Norm(q)
  {
    hide Mul;
    Signs(q.q0, q.q1);
    Signs(q.q0, q.q2);
    Signs(q.q0, q.q3);
    Signs(q.q1, q.q1);
    Signs(q.q1, q.q2);
    Signs(q.q1, q.q3);
    Signs(q.q2, q.q2);
    Signs(q.q2, q.q3);
    Signs(q.q3, q.q3);
  }

  lemma Signs(a: real, b: real)
    ensures Mul(-a, -b) == Mul(a, b) && Mul(a, -b) == -Mul(a, b)
  {
  }

  /** A product of images, multiplied out, from the products of the columns. */
  lemma ProductTerms(a: Vector, b: Vector, c: Vector, u: Vector, v: Vector)
    ensures Dot(Times(Matrix(a, b, c), u), Times(Matrix(a, b, c), v))
      == (u.x * v.x) * (a.x * a.x + b.x * b.x + c.x * c.x)
       + (u.y * v.y) * (a.y * a.y + b.y * b.y + c.y * c.y)
       + (u.z * v.z) * (a.z * a.z + b.z * b.z + c.z * c.z)
       + (u.x * v.y + u.y * v.x) * (a.x * a.y + b.x * b.y + c.x * c.y)
       + (u.x * v.z + u.z * v.x) * (a.x * a.z + b.x * b.z + c.x * c.z)
       + (u.y * v.z + u.z * v.y) * (a.y * a.z + b.y * b.z + c.y * c.z)
  {
  }

  ghost predicate KeepsLengths(m: Matrix) {
    forall v: Vector :: Dot(Times(m, v), Times(m, v)) == Dot(v, v)
  }

  /** A matrix with orthonormal columns keeps every inner product. */
  lemma KeepsDots(m: Matrix, u: Vector, v: Vector)
    requires Orthonormal(Transpose(m))
    ensures Dot(Times(m, u), Times(m, v)) == Dot(u, v)
  {
    var (a, b, c) := (m.r0, m.r1, m.r2);
    ColumnSums(m);
    hide Times, Transpose, Dot;
    ProductTerms(a, b, c, u, v);
    Coefficient(u.x * v.x, a.x * a.x + b.x * b.x + c.x * c.x, 1.0);
    Coefficient(u.y * v.y, a.y * a.y + b.y * b.y + c.y * c.y, 1.0);
    Coefficient(u.z * v.z, a.z * a.z + b.z * b.z + c.z * c.z, 1.0);
    Coefficient(u.x * v.y + u.y * v.x, a.x * a.y + b.x * b.y + c.x * c.y, 0.0);
    Coefficient(u.x * v.z + u.z * v.x, a.x * a.z + b.x * b.z + c.x * c.z, 0.0);
    Coefficient(u.y * v.z + u.z * v.y, a.y * a.z + b.y * b.z + c.y * c.z, 0.0);
    DotIsMul(u, v);
  }

  lemma Coefficient(k: real, s: real, value: real)
    requires s == value
    ensures k * s == k * value
  {
  }

  lemma ColumnSums(m: Matrix)
    requires Orthonormal(Transpose(m))
    ensures var (a, b, c) := (m.r0, m.r1, m.r2);
      && a.x * a.x + b.x * b.x + c.x * c.x == 1.0
      && a.y * a.y + b.y * b.y + c.y * c.y == 1.0
      && a.z * a.z + b.z * b.z + c.z * c.z == 1.0
      && a.x * a.y + b.x * b.y + c.x * c.y == 0.0
      && a.x * a.z + b.x * b.z + c.x * c.z == 0.0
      && a.y * a.z + b.y * b.z + c.y * c.z == 0.0
  {
  }

  lemma DotIsMul(u: Vector, v: Vector)
    ensures Dot(u, v) == Mul(u.x, v.x) + Mul(u.y, v.y) + Mul(u.z, v.z)
  {
  }

  lemma Units(k: real)
    ensures Mul(k, 1.0) == k && Mul(k, 0.0) == 0.0
  {
  }

  /** The images of the axes are the columns. */
  lemma Columns(m: Matrix)
    ensures Times(m, Vector(1.0, 0.0, 0.0)) == Transpose(m).r0
    ensures Times(m, Vector(0.0, 1.0, 0.0)) == Transpose(m).r1
    ensures Times(m, Vector(0.0, 0.0, 1.0)) == Transpose(m).r2
  {
  }

  // ---------- Main results ----------

  /** A unit quaternion gives a proper rotation: orthonormal rows, determinant one, and
      every length and angle kept. */
  lemma UnitIsRotation(q: Quaternion, u: Vector, v: Vector)
    requires Norm(q) == 1.0
    ensures var m := Dcm(q);
      Orthonormal(m) && Determinant(m) == 1.0 && Dot(Times(m, u), Times(m, v)) == Dot(u, v)
  {
    hide Dcm, Norm, Dot, Times, Cross, Transpose;
    OrthonormalIff(q);
    ThirdRow(q);
    TransposeIsConjugate(q);
    OrthonormalIff(Conjugate(q));
    KeepsDots(Dcm(q), u, v);
  }

  /** Lengths are kept exactly by the unit quaternions and by those with no vector part
      (whose matrix is the identity). */
  lemma LengthsKeptIff(q: Quaternion)
    ensures KeepsLengths(Dcm(q)) <==> Norm(q) == 1.0 || q.q1 == q.q2 == q.q3 == 0.0
  {
    hide Dcm, Norm, Dot, Times, Mul, Transpose;
    var (m, p) := (Dcm(q), Conjugate(q));
    TransposeIsConjugate(q);
    OrthonormalIff(p);
    if Orthonormal(Dcm(p)) {
      forall v: Vector
        ensures Dot(Times(m, v), Times(m, v)) == Dot(v, v)
      {
        KeepsDots(m, v, v);
      }
    }
    if KeepsLengths(m) {
      Columns(m);
      AxesAreUnits();
      RowDots(p);
      UnitColumns(Norm(p) - 1.0, p);
    }
  }

  lemma AxesAreUnits()
    ensures Dot(Vector(1.0, 0.0, 0.0), Vector(1.0, 0.0, 0.0)) == 1.0
    ensures Dot(Vector(0.0, 1.0, 0.0), Vector(0.0, 1.0, 0.0)) == 1.0
    ensures Dot(Vector(0.0, 0.0, 1.0), Vector(0.0, 0.0, 1.0)) == 1.0
  {
    hide Dot, Mul;
    DotIsMul(Vector(1.0, 0.0, 0.0), Vector(1.0, 0.0, 0.0));
    DotIsMul(Vector(0.0, 1.0, 0.0), Vector(0.0, 1.0, 0.0));
    DotIsMul(Vector(0.0, 0.0, 1.0), Vector(0.0, 0.0, 1.0));
    Units(0.0);
    Units(1.0);
  }

  lemma UnitColumns(n: real, q: Quaternion)
    requires Mul(Mul(q.q2, q.q2) + Mul(q.q3, q.q3), n) == 0.0
    requires Mul(Mul(q.q3, q.q3) + Mul(q.q1, q.q1), n) == 0.0
    requires Mul(Mul(q.q1, q.q1) + Mul(q.q2, q.q2), n) == 0.0
    ensures n == 0.0 || q.q1 == q.q2 == q.q3 == 0.0
  {
    hide Mul;
    var (a, b, c) := (Mul(q.q1, q.q1), Mul(q.q2, q.q2), Mul(q.q3, q.q3));
    MulZero(b + c, n);
    MulZero(c + a, n);
    MulZero(a + b, n);
    MulZero(q.q1, q.q1);
    MulZero(q.q2, q.q2);
    MulZero(q.q3, q.q3);
  }

  /** position_estimator_update's change of frame: the reading less the bias, in world axes. */
  function World(q: Quaternion, reading: Vector, bias: Vector): Vector {
    Times(Dcm(q), Vector(reading.x - bias.x, reading.y - bias.y, reading.z - bias.z))
  }

  /** Turning the sensor's frame changes no length, whatever the bias. */
  lemma WorldKeepsLength(q: Quaternion, reading: Vector, bias: Vector)
    requires Norm(q) == 1.0
    ensures var (w, a) := (World(q, reading, bias), Vector(reading.x - bias.x, reading.y - bias.y, reading.z - bias.z));
      Dot(w, w) == Dot(a, a)
  {
    hide Dcm, Norm, Dot, Times;
    var a := Vector(reading.x - bias.x, reading.y - bias.y, reading.z - bias.z);
    UnitIsRotation(q, a, a);
  }
}
