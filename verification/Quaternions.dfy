/** Quaternion multiplication, and what it says about the change of frame: which way the frame
    is turned, and that turning twice is turning by the product. */
module Quaternions {
  import opened Rotation

  const ONE := Quaternion(1.0, 0.0, 0.0, 0.0)

  /** The Hamilton product. */
  function Product(p: Quaternion, q: Quaternion): Quaternion {
    Quaternion(
      Mul(p.q0, q.q0) - Mul(p.q1, q.q1) - Mul(p.q2, q.q2) - Mul(p.q3, q.q3),
      Mul(p.q0, q.q1) + Mul(p.q1, q.q0) + Mul(p.q2, q.q3) - Mul(p.q3, q.q2),
      Mul(p.q0, q.q2) - Mul(p.q1, q.q3) + Mul(p.q2, q.q0) + Mul(p.q3, q.q1),
      Mul(p.q0, q.q3) + Mul(p.q1, q.q2) - Mul(p.q2, q.q1) + Mul(p.q3, q.q0))
  }

  lemma UnitTimes(b: real)
    ensures Mul(0.0, b) == 0.0 && Mul(1.0, b) == b
  {
  }

  /** Its table: what multiplying from the left by each of the four units does. */
  lemma ProductTable(u: Quaternion, q: Quaternion)
    ensures u == Quaternion(1.0, 0.0, 0.0, 0.0) ==> Product(u, q) == q
    ensures u == Quaternion(0.0, 1.0, 0.0, 0.0) ==> Product(u, q) == Quaternion(-q.q1, q.q0, -q.q3, q.q2)
    ensures u == Quaternion(0.0, 0.0, 1.0, 0.0) ==> Product(u, q) == Quaternion(-q.q2, q.q3, q.q0, -q.q1)
    ensures u == Quaternion(0.0, 0.0, 0.0, 1.0) ==> Product(u, q) == Quaternion(-q.q3, -q.q2, q.q1, q.q0)
  {
    hide Mul;
    UnitTimes(q.q0);
    UnitTimes(q.q1);
    UnitTimes(q.q2);
    UnitTimes(q.q3);
  }

  lemma ProductOne(q: Quaternion)
    ensures Product(ONE, q) == q == Product(q, ONE)
  {
  }

  lemma ConjugateParts(p: Quaternion, q: Quaternion, a0: real, a1: real, a2: real, a3: real,
                       b0: real, b1: real, b2: real, b3: real)
    requires p == Quaternion(a0, a1, a2, a3) && q == Quaternion(b0, b1, b2, b3)
    ensures Product(Conjugate(q), Conjugate(p)) == Quaternion(
              a0 * b0 - a1 * b1 - a2 * b2 - a3 * b3,
              -(a0 * b1 + a1 * b0 + a2 * b3 - a3 * b2),
              -(a0 * b2 - a1 * b3 + a2 * b0 + a3 * b1),
              -(a0 * b3 + a1 * b2 - a2 * b1 + a3 * b0))
  {
  }

  lemma ConjugateProduct(p: Quaternion, q: Quaternion)
    ensures Conjugate(Product(p, q)) == Product(Conjugate(q), Conjugate(p))
  {
    hide Product, Mul;
    ProductIs(p, q, p.q0, p.q1, p.q2, p.q3, q.q0, q.q1, q.q2, q.q3);
    ConjugateParts(p, q, p.q0, p.q1, p.q2, p.q3, q.q0, q.q1, q.q2, q.q3);
  }

  lemma TimesConjugate(q: Quaternion)
    ensures Product(q, Conjugate(q)) == Quaternion(Norm(q), 0.0, 0.0, 0.0)
  {
  }

  // ---------- Associativity ----------

  /** The product of quaternions given by their parts. */
  lemma ProductIs(p: Quaternion, q: Quaternion, a0: real, a1: real, a2: real, a3: real,
                  b0: real, b1: real, b2: real, b3: real)
    requires p == Quaternion(a0, a1, a2, a3) && q == Quaternion(b0, b1, b2, b3)
    ensures Product(p, q) == Quaternion(
              a0 * b0 - a1 * b1 - a2 * b2 - a3 * b3,
              a0 * b1 + a1 * b0 + a2 * b3 - a3 * b2,
              a0 * b2 - a1 * b3 + a2 * b0 + a3 * b1,
              a0 * b3 + a1 * b2 - a2 * b1 + a3 * b0)
  {
  }

  lemma Scalars(a0: real, a1: real, a2: real, a3: real, b0: real, b1: real, b2: real, b3: real,
                c0: real, c1: real, c2: real, c3: real)
    ensures Mul(a0 * b0 - a1 * b1 - a2 * b2 - a3 * b3, c0) - Mul(a0 * b1 + a1 * b0 + a2 * b3 - a3 * b2, c1)
            - Mul(a0 * b2 - a1 * b3 + a2 * b0 + a3 * b1, c2) - Mul(a0 * b3 + a1 * b2 - a2 * b1 + a3 * b0, c3)
         == Mul(a0, b0 * c0 - b1 * c1 - b2 * c2 - b3 * c3) - Mul(a1, b0 * c1 + b1 * c0 + b2 * c3 - b3 * c2)
            - Mul(a2, b0 * c2 - b1 * c3 + b2 * c0 + b3 * c1) - Mul(a3, b0 * c3 + b1 * c2 - b2 * c1 + b3 * c0)
  {
  }

  lemma FirstParts(a0: real, a1: real, a2: real, a3: real, b0: real, b1: real, b2: real, b3: real,
                   c0: real, c1: real, c2: real, c3: real)
    ensures Mul(a0 * b0 - a1 * b1 - a2 * b2 - a3 * b3, c1) + Mul(a0 * b1 + a1 * b0 + a2 * b3 - a3 * b2, c0)
            + Mul(a0 * b2 - a1 * b3 + a2 * b0 + a3 * b1, c3) - Mul(a0 * b3 + a1 * b2 - a2 * b1 + a3 * b0, c2)
         == Mul(a0, b0 * c1 + b1 * c0 + b2 * c3 - b3 * c2) + Mul(a1, b0 * c0 - b1 * c1 - b2 * c2 - b3 * c3)
            + Mul(a2, b0 * c3 + b1 * c2 - b2 * c1 + b3 * c0) - Mul(a3, b0 * c2 - b1 * c3 + b2 * c0 + b3 * c1)
  {
  }

  lemma SecondParts(a0: real, a1: real, a2: real, a3: real, b0: real, b1: real, b2: real, b3: real,
                    c0: real, c1: real, c2: real, c3: real)
    ensures Mul(a0 * b0 - a1 * b1 - a2 * b2 - a3 * b3, c2) - Mul(a0 * b1 + a1 * b0 + a2 * b3 - a3 * b2, c3)
            + Mul(a0 * b2 - a1 * b3 + a2 * b0 + a3 * b1, c0) + Mul(a0 * b3 + a1 * b2 - a2 * b1 + a3 * b0, c1)
         == Mul(a0, b0 * c2 - b1 * c3 + b2 * c0 + b3 * c1) - Mul(a1, b0 * c3 + b1 * c2 - b2 * c1 + b3 * c0)
            + Mul(a2, b0 * c0 - b1 * c1 - b2 * c2 - b3 * c3) + Mul(a3, b0 * c1 + b1 * c0 + b2 * c3 - b3 * c2)
  {
  }

  lemma ThirdParts(a0: real, a1: real, a2: real, a3: real, b0: real, b1: real, b2: real, b3: real,
                   c0: real, c1: real, c2: real, c3: real)
    ensures Mul(a0 * b0 - a1 * b1 - a2 * b2 - a3 * b3, c3) + Mul(a0 * b1 + a1 * b0 + a2 * b3 - a3 * b2, c2)
            - Mul(a0 * b2 - a1 * b3 + a2 * b0 + a3 * b1, c1) + Mul(a0 * b3 + a1 * b2 - a2 * b1 + a3 * b0, c0)
         == Mul(a0, b0 * c3 + b1 * c2 - b2 * c1 + b3 * c0) + Mul(a1, b0 * c2 - b1 * c3 + b2 * c0 + b3 * c1)
            - Mul(a2, b0 * c1 + b1 * c0 + b2 * c3 - b3 * c2) + Mul(a3, b0 * c0 - b1 * c1 - b2 * c2 - b3 * c3)
  {
  }

  lemma AssociativeParts(p: Quaternion, q: Quaternion, r: Quaternion, a0: real, a1: real, a2: real, a3: real,
                         b0: real, b1: real, b2: real, b3: real, c0: real, c1: real, c2: real, c3: real)
    requires p == Quaternion(a0, a1, a2, a3) && q == Quaternion(b0, b1, b2, b3) && r == Quaternion(c0, c1, c2, c3)
    ensures Product(Product(p, q), r) == Product(p, Product(q, r))
  {
    hide Mul;
    ProductIs(p, q, a0, a1, a2, a3, b0, b1, b2, b3);
    ProductIs(q, r, b0, b1, b2, b3, c0, c1, c2, c3);
    Scalars(a0, a1, a2, a3, b0, b1, b2, b3, c0, c1, c2, c3);
    FirstParts(a0, a1, a2, a3, b0, b1, b2, b3, c0, c1, c2, c3);
    SecondParts(a0, a1, a2, a3, b0, b1, b2, b3, c0, c1, c2, c3);
    ThirdParts(a0, a1, a2, a3, b0, b1, b2, b3, c0, c1, c2, c3);
  }

  lemma Associative(p: Quaternion, q: Quaternion, r: Quaternion)
    ensures Product(Product(p, q), r) == Product(p, Product(q, r))
  {
    hide *;
    AssociativeParts(p, q, r, p.q0, p.q1, p.q2, p.q3, q.q0, q.q1, q.q2, q.q3, r.q0, r.q1, r.q2, r.q3);
  }

  // ---------- A vector between a quaternion and its conjugate ----------

  /** A quaternion with no scalar part. */
  function Pure(v: Vector): Quaternion {
    Quaternion(0.0, v.x, v.y, v.z)
  }

  function Less(a: Vector, b: Vector): Vector {
    Vector(a.x - b.x, a.y - b.y, a.z - b.z)
  }

  /** `a`, and `k` times `b`. */
  function Plus(a: Vector, k: real, b: Vector): Vector {
    Vector(a.x + Mul(k, b.x), a.y + Mul(k, b.y), a.z + Mul(k, b.z))
  }

  lemma PureProduct(q: Quaternion, v: Vector, w: real, x: real, y: real, z: real, a: real, b: real, c: real)
    requires q == Quaternion(w, x, y, z) && v == Vector(a, b, c)
    ensures Product(q, Pure(v)) == Quaternion(
              -x * a - y * b - z * c,
              w * a + y * c - z * b,
              w * b - x * c + z * a,
              w * c + x * b - y * a)
  {
  }

  lemma FirstRow(q: Quaternion, w: real, x: real, y: real, z: real)
    requires q == Quaternion(w, x, y, z)
    ensures Dcm(q).r0 == Vector(1.0 - 2.0 * (y * y + z * z), 2.0 * (x * y - w * z), 2.0 * (x * z + w * y))
  {
  }

  lemma SecondRow(q: Quaternion, w: real, x: real, y: real, z: real)
    requires q == Quaternion(w, x, y, z)
    ensures Dcm(q).r1 == Vector(2.0 * (x * y + w * z), 1.0 - 2.0 * (x * x + z * z), 2.0 * (y * z - w * x))
  {
  }

  lemma LastRow(q: Quaternion, w: real, x: real, y: real, z: real)
    requires q == Quaternion(w, x, y, z)
    ensures Dcm(q).r2 == Vector(2.0 * (x * z - w * y), 2.0 * (y * z + w * x), 1.0 - 2.0 * (x * x + y * y))
  {
  }

  lemma NormParts(q: Quaternion, w: real, x: real, y: real, z: real)
    requires q == Quaternion(w, x, y, z)
    ensures Norm(q) - 1.0 == w * w + x * x + y * y + z * z - 1.0
  {
  }

  lemma SandwichScalar(w: real, x: real, y: real, z: real, a: real, b: real, c: real)
    ensures Mul(-x * a - y * b - z * c, w) + Mul(w * a + y * c - z * b, x)
            + Mul(w * b - x * c + z * a, y) + Mul(w * c + x * b - y * a, z) == 0.0
  {
  }

  lemma SandwichFirst(w: real, x: real, y: real, z: real, a: real, b: real, c: real)
    ensures Mul(w * a + y * c - z * b, w) - Mul(-x * a - y * b - z * c, x)
            + Mul(w * c + x * b - y * a, y) - Mul(w * b - x * c + z * a, z)
         == Mul(1.0 - 2.0 * (y * y + z * z), a) + Mul(2.0 * (x * y - w * z), b) + Mul(2.0 * (x * z + w * y), c)
            + Mul(w * w + x * x + y * y + z * z - 1.0, a)
  {
  }

  lemma SandwichSecond(w: real, x: real, y: real, z: real, a: real, b: real, c: real)
    ensures Mul(w * b - x * c + z * a, w) - Mul(-x * a - y * b - z * c, y)
            + Mul(w * a + y * c - z * b, z) - Mul(w * c + x * b - y * a, x)
         == Mul(2.0 * (x * y + w * z), a) + Mul(1.0 - 2.0 * (x * x + z * z), b) + Mul(2.0 * (y * z - w * x), c)
            + Mul(w * w + x * x + y * y + z * z - 1.0, b)
  {
  }

  lemma SandwichThird(w: real, x: real, y: real, z: real, a: real, b: real, c: real)
    ensures Mul(w * c + x * b - y * a, w) - Mul(-x * a - y * b - z * c, z)
            + Mul(w * b - x * c + z * a, x) - Mul(w * a + y * c - z * b, y)
         == Mul(2.0 * (x * z - w * y), a) + Mul(2.0 * (y * z + w * x), b) + Mul(1.0 - 2.0 * (x * x + y * y), c)
            + Mul(w * w + x * x + y * y + z * z - 1.0, c)
  {
  }

  lemma ByConjugate(u: Quaternion, q: Quaternion)
    ensures Product(u, Conjugate(q)) == Quaternion(
              Mul(u.q0, q.q0) + Mul(u.q1, q.q1) + Mul(u.q2, q.q2) + Mul(u.q3, q.q3),
              Mul(u.q1, q.q0) - Mul(u.q0, q.q1) + Mul(u.q3, q.q2) - Mul(u.q2, q.q3),
              Mul(u.q2, q.q0) - Mul(u.q0, q.q2) + Mul(u.q1, q.q3) - Mul(u.q3, q.q1),
              Mul(u.q3, q.q0) - Mul(u.q0, q.q3) + Mul(u.q2, q.q1) - Mul(u.q1, q.q2))
  {
  }

  lemma SandwichParts(q: Quaternion, v: Vector, w: real, x: real, y: real, z: real, a: real, b: real, c: real)
    requires q == Quaternion(w, x, y, z) && v == Vector(a, b, c)
    ensures Product(Product(q, Pure(v)), Conjugate(q)) == Pure(Plus(Times(Dcm(q), v), Norm(q) - 1.0, v))
  {
    hide Mul, Dcm, Norm, Dot, Product;
    PureProduct(q, v, w, x, y, z, a, b, c);
    ByConjugate(Product(q, Pure(v)), q);
    FirstRow(q, w, x, y, z);
    SecondRow(q, w, x, y, z);
    LastRow(q, w, x, y, z);
    NormParts(q, w, x, y, z);
    DotIsMul(Dcm(q).r0, v);
    DotIsMul(Dcm(q).r1, v);
    DotIsMul(Dcm(q).r2, v);
    SandwichScalar(w, x, y, z, a, b, c);
    SandwichFirst(w, x, y, z, a, b, c);
    SandwichSecond(w, x, y, z, a, b, c);
    SandwichThird(w, x, y, z, a, b, c);
  }

  /** For every quaternion and every vector: q v q* has no scalar part, and its vector part is the
      matrix applied to v, but for a multiple of v that a unit quaternion does without. */
  lemma Sandwich(q: Quaternion, v: Vector)
    ensures Product(Product(q, Pure(v)), Conjugate(q)) == Pure(Plus(Times(Dcm(q), v), Norm(q) - 1.0, v))
  {
    hide *;
    SandwichParts(q, v, q.q0, q.q1, q.q2, q.q3, v.x, v.y, v.z);
  }

  // ---------- Main results ----------

  /** The change of frame is quaternion rotation: of the reading less the bias, v, it gives q v q*. */
  lemma WorldIsProduct(q: Quaternion, reading: Vector, bias: Vector)
    requires Norm(q) == 1.0
    ensures Pure(World(q, reading, bias)) == Product(Product(q, Pure(Less(reading, bias))), Conjugate(q))
  {
    hide Mul, Dcm, Norm, Times, Product;
    var v := Less(reading, bias);
    Sandwich(q, v);
    Units(v.x);
    Units(v.y);
    Units(v.z);
    Commutes(0.0, v.x);
    Commutes(0.0, v.y);
    Commutes(0.0, v.z);
  }

  lemma UnitProduct(p: Quaternion, q: Quaternion)
    requires Norm(p) == Norm(q) == 1.0
    ensures Norm(Product(p, q)) == 1.0
  {
    hide Product, Norm, Conjugate;
    var (p', q') := (Conjugate(p), Conjugate(q));
    TimesConjugate(Product(p, q));
    ConjugateProduct(p, q);
    Associative(p, q, Product(q', p'));
    Associative(q, q', p');
    TimesConjugate(q);
    ProductOne(p');
    TimesConjugate(p);
  }

  /** Changing frame by a product is changing frame by its second factor and then by its first. */
  lemma WorldComposes(p: Quaternion, q: Quaternion, reading: Vector, bias: Vector)
    requires Norm(p) == Norm(q) == 1.0
    ensures World(Product(p, q), reading, bias) ==
      World(p, World(q, reading, bias), Vector(0.0, 0.0, 0.0))
  {
    hide Product, Norm, Conjugate, World;
    var (p', q', v) := (Conjugate(p), Conjugate(q), Pure(Less(reading, bias)));
    UnitProduct(p, q);
    WorldIsProduct(Product(p, q), reading, bias);
    ConjugateProduct(p, q);
    Associative(Product(Product(p, q), v), q', p');
    Associative(p, q, v);
    Associative(p, Product(q, v), q');
    WorldIsProduct(q, reading, bias);
    WorldIsProduct(p, World(q, reading, bias), Vector(0.0, 0.0, 0.0));
    assert Less(World(q, reading, bias), Vector(0.0, 0.0, 0.0)) == World(q, reading, bias);
  }

  /** Which way it turns: about the third axis, from the first towards the second. */
  lemma TurnsForward(c: real, s: real)
    requires c * c + s * s == 1.0
    ensures World(Quaternion(c, 0.0, 0.0, s), Vector(1.0, 0.0, 0.0), Vector(0.0, 0.0, 0.0)) ==
      Vector(1.0 - 2.0 * (s * s), 2.0 * (c * s), 0.0)
  {
    hide Dcm, Dot, Mul;
    var m := Dcm(Quaternion(c, 0.0, 0.0, s));
    DcmAbout(c, s);
    Columns(m);
  }

  lemma DcmAbout(c: real, s: real)
    ensures Transpose(Dcm(Quaternion(c, 0.0, 0.0, s))).r0 == Vector(1.0 - 2.0 * (s * s), 2.0 * (c * s), 0.0)
  {
  }
}
