/** Quaternions over exact reals, the rotations they stand for, and their matrices. */
module Quaternions {
  import Matrices

  datatype Vec3 = Vec3(x: real, y: real, z: real)
  datatype Quat = Quat(w: real, x: real, y: real, z: real)

  /** A 3x3 matrix by its columns. */
  datatype Mat3 = Mat3(c0: Vec3, c1: Vec3, c2: Vec3)

  const ZERO := Quat(0.0, 0.0, 0.0, 0.0)
  const ONE := Quat(1.0, 0.0, 0.0, 0.0)
  const IDENTITY := Mat3(Vec3(1.0, 0.0, 0.0), Vec3(0.0, 1.0, 0.0), Vec3(0.0, 0.0, 1.0))

  /** A product of reals under a name of its own, so that larger expressions can be compared
      term by term. */
  function Times(a: real, b: real): (d: real) { a * b }

  // ----- the operations

  function Mul(q: Quat, r: Quat): (p: Quat) {
    Quat(Times(q.w, r.w) - Times(q.x, r.x) - Times(q.y, r.y) - Times(q.z, r.z),
         Times(q.w, r.x) + Times(q.x, r.w) + Times(q.y, r.z) - Times(q.z, r.y),
         Times(q.w, r.y) - Times(q.x, r.z) + Times(q.y, r.w) + Times(q.z, r.x),
         Times(q.w, r.z) + Times(q.x, r.y) - Times(q.y, r.x) + Times(q.z, r.w))
  }

  function Scale(q: Quat, s: real): (p: Quat) {
    Quat(Times(q.w, s), Times(q.x, s), Times(q.y, s), Times(q.z, s))
  }

  function Dot(p: Quat, q: Quat): (d: real) {
    Times(p.x, q.x) + Times(p.y, q.y) + Times(p.z, q.z) + Times(p.w, q.w)
  }

  function Conj(q: Quat): (p: Quat) {
    Quat(q.w, -q.x, -q.y, -q.z)
  }

  function Inverse(q: Quat): (p: Quat)
    requires q != ZERO
  {
    DotIsPositive(q);
    Scale(Conj(q), 1.0 / Dot(q, q))
  }

  function Pure(v: Vec3): (p: Quat) {
    Quat(0.0, v.x, v.y, v.z)
  }

  function Imaginary(q: Quat): (u: Vec3) {
    Vec3(q.x, q.y, q.z)
  }

  /** A quaternion times a vector: the imaginary part of the conjugation. */
  function Rotate(q: Quat, v: Vec3): (u: Vec3)
    requires q != ZERO
  {
    Imaginary(Mul(Mul(q, Pure(v)), Inverse(q)))
  }

  function Plus(u: Vec3, v: Vec3): (w: Vec3) {
    Vec3(u.x + v.x, u.y + v.y, u.z + v.z)
  }

  function Weighted(v: Vec3, s: real): (u: Vec3) {
    Vec3(Times(v.x, s), Times(v.y, s), Times(v.z, s))
  }

  function Length2(v: Vec3): (d: real) {
    Times(v.x, v.x) + Times(v.y, v.y) + Times(v.z, v.z)
  }

  /** Matrix by column vector, accumulated column by column. */
  function Apply(m: Mat3, v: Vec3): (u: Vec3) {
    Plus(Plus(Weighted(m.c0, v.x), Weighted(m.c1, v.y)), Weighted(m.c2, v.z))
  }

  function Product(a: Mat3, b: Mat3): (m: Mat3) {
    Mat3(Apply(a, b.c0), Apply(a, b.c1), Apply(a, b.c2))
  }

  /** The matrix constructed from a quaternion of any length. */
  function RotationMatrix(q: Quat): (m: Mat3) {
    var n := Dot(q, q);
    var s := if n > 0.0 then 2.0 / n else 0.0;
    var x, y, z := Times(s, q.x), Times(s, q.y), Times(s, q.z);
    var xx, xy, xz, xw := Times(x, q.x), Times(x, q.y), Times(x, q.z), Times(x, q.w);
    var yy, yz, yw := Times(y, q.y), Times(y, q.z), Times(y, q.w);
    var zz, zw := Times(z, q.z), Times(z, q.w);
    Mat3(Vec3(1.0 - yy - zz, xy + zw, xz - yw),
         Vec3(xy - zw, 1.0 - xx - zz, yz + xw),
         Vec3(xz + yw, yz - xw, 1.0 - xx - yy))
  }

  // ----- the algebra of quaternions

  lemma Same(p: Quat, q: Quat)
    requires p.w == q.w && p.x == q.x && p.y == q.y && p.z == q.z
    ensures p == q
  {
  }

  lemma SquareSign(a: real)
    ensures Times(a, a) >= 0.0 && (Times(a, a) == 0.0 <==> a == 0.0)
  {
    if a > 0.0 {
      PositiveProduct(a, a);
    } else if a < 0.0 {
      PositiveProduct(-a, -a);
      assert Times(a, a) == Times(-a, -a);
    }
  }

  lemma PositiveProduct(a: real, b: real)
    requires a > 0.0 && b > 0.0
    ensures Times(a, b) > 0.0
  {
  }

  lemma DotIsPositive(q: Quat)
    ensures Dot(q, q) >= 0.0
    ensures Dot(q, q) == 0.0 <==> q == ZERO
  {
    SquareSign(q.x);
    SquareSign(q.y);
    SquareSign(q.z);
    SquareSign(q.w);
  }

  /** The cyclic renaming of the three imaginary units. */
  function Turn(q: Quat): (p: Quat) {
    Quat(q.w, q.y, q.z, q.x)
  }

  lemma TurnMul(p: Quat, q: Quat)
    ensures Mul(Turn(p), Turn(q)) == Turn(Mul(p, q))
  {
    Same(Mul(Turn(p), Turn(q)), Turn(Mul(p, q)));
  }

  function Times3(a: real, b: real, c: real): (d: real) { a * b * c }

  lemma Distribute(a: real, b: real, c: real, d: real, e: real, f: real, g: real, h: real, u: real)
    ensures Times(Times(a, b) + Times(c, d) + Times(e, f) - Times(g, h), u)
      == Times3(a, b, u) + Times3(c, d, u) + Times3(e, f, u) - Times3(g, h, u)
    ensures Times(u, Times(a, b) + Times(c, d) + Times(e, f) - Times(g, h))
      == Times3(u, a, b) + Times3(u, c, d) + Times3(u, e, f) - Times3(u, g, h)
  {
  }

  lemma DistributeNegative(a: real, b: real, c: real, d: real, e: real, f: real, g: real, h: real, u: real)
    ensures Times(Times(a, b) - Times(c, d) - Times(e, f) - Times(g, h), u)
      == Times3(a, b, u) - Times3(c, d, u) - Times3(e, f, u) - Times3(g, h, u)
    ensures Times(u, Times(a, b) - Times(c, d) - Times(e, f) - Times(g, h))
      == Times3(u, a, b) - Times3(u, c, d) - Times3(u, e, f) - Times3(u, g, h)
  {
  }

  lemma MultiplyOut(p: Quat, q: Quat, u: real)
    ensures Times(Mul(p, q).w, u)
      == Times3(p.w, q.w, u) - Times3(p.x, q.x, u) - Times3(p.y, q.y, u) - Times3(p.z, q.z, u)
    ensures Times(Mul(p, q).x, u)
      == Times3(p.w, q.x, u) + Times3(p.x, q.w, u) + Times3(p.y, q.z, u) - Times3(p.z, q.y, u)
    ensures Times(Mul(p, q).y, u)
      == Times3(p.w, q.y, u) - Times3(p.x, q.z, u) + Times3(p.y, q.w, u) + Times3(p.z, q.x, u)
    ensures Times(Mul(p, q).z, u)
      == Times3(p.w, q.z, u) + Times3(p.x, q.y, u) - Times3(p.y, q.x, u) + Times3(p.z, q.w, u)
  {
    DistributeNegative(p.w, q.w, p.x, q.x, p.y, q.y, p.z, q.z, u);
    Distribute(p.w, q.x, p.x, q.w, p.y, q.z, p.z, q.y, u);
    Distribute(p.w, q.y, p.y, q.w, p.z, q.x, p.x, q.z, u);
    Distribute(p.w, q.z, p.x, q.y, p.z, q.w, p.y, q.x, u);
  }

  lemma MultiplyIn(p: Quat, q: Quat, u: real)
    ensures Times(u, Mul(p, q).w)
      == Times3(u, p.w, q.w) - Times3(u, p.x, q.x) - Times3(u, p.y, q.y) - Times3(u, p.z, q.z)
    ensures Times(u, Mul(p, q).x)
      == Times3(u, p.w, q.x) + Times3(u, p.x, q.w) + Times3(u, p.y, q.z) - Times3(u, p.z, q.y)
    ensures Times(u, Mul(p, q).y)
      == Times3(u, p.w, q.y) - Times3(u, p.x, q.z) + Times3(u, p.y, q.w) + Times3(u, p.z, q.x)
    ensures Times(u, Mul(p, q).z)
      == Times3(u, p.w, q.z) + Times3(u, p.x, q.y) - Times3(u, p.y, q.x) + Times3(u, p.z, q.w)
  {
    DistributeNegative(p.w, q.w, p.x, q.x, p.y, q.y, p.z, q.z, u);
    Distribute(p.w, q.x, p.x, q.w, p.y, q.z, p.z, q.y, u);
    Distribute(p.w, q.y, p.y, q.w, p.z, q.x, p.x, q.z, u);
    Distribute(p.w, q.z, p.x, q.y, p.z, q.w, p.y, q.x, u);
  }

  lemma MulAssociative(p: Quat, q: Quat, r: Quat)
    ensures Mul(Mul(p, q), r) == Mul(p, Mul(q, r))
  {
    MultiplyOut(p, q, r.w);
    MultiplyOut(p, q, r.x);
    MultiplyOut(p, q, r.y);
    MultiplyOut(p, q, r.z);
    MultiplyIn(q, r, p.w);
    MultiplyIn(q, r, p.x);
    MultiplyIn(q, r, p.y);
    MultiplyIn(q, r, p.z);
    Same(Mul(Mul(p, q), r), Mul(p, Mul(q, r)));
  }

  function Real(s: real): (p: Quat) {
    Quat(s, 0.0, 0.0, 0.0)
  }

  lemma TimesZero(a: real)
    ensures Times(a, 0.0) == Times(0.0, a) == 0.0
    ensures Times(a, 1.0) == Times(1.0, a) == a
  {
  }

  lemma ScaleIsMul(q: Quat, s: real)
    ensures Scale(q, s) == Mul(q, Real(s)) == Mul(Real(s), q)
  {
    TimesZero(q.w);
    TimesZero(q.x);
    TimesZero(q.y);
    TimesZero(q.z);
    Same(Scale(q, s), Mul(q, Real(s)));
    Same(Scale(q, s), Mul(Real(s), q));
  }

  lemma ScaleMul(q: Quat, r: Quat, s: real)
    ensures Mul(Scale(q, s), r) == Mul(q, Scale(r, s)) == Scale(Mul(q, r), s)
  {
    ScaleIsMul(q, s);
    ScaleIsMul(r, s);
    ScaleIsMul(Mul(q, r), s);
    MulAssociative(q, Real(s), r);
    MulAssociative(q, r, Real(s));
  }

  ghost predicate SignRules(a: real, b: real) {
    && Times(a, b) == Times(b, a) == Times(-a, -b) == Times(-b, -a)
    && -Times(a, b) == Times(-a, b) == Times(b, -a) == Times(a, -b) == Times(-b, a)
  }

  lemma Signs(a: real, b: real)
    ensures SignRules(a, b)
  {
  }

  lemma SignsOf(a: real, q: Quat)
    ensures SignRules(a, q.w) && SignRules(a, q.x) && SignRules(a, q.y) && SignRules(a, q.z)
  {
    Signs(a, q.w);
    Signs(a, q.x);
    Signs(a, q.y);
    Signs(a, q.z);
  }

  lemma ConjMul(q: Quat, r: Quat)
    ensures Conj(Mul(q, r)) == Mul(Conj(r), Conj(q))
  {
    SignsOf(q.w, r);
    SignsOf(q.x, r);
    SignsOf(q.y, r);
    SignsOf(q.z, r);
    Same(Conj(Mul(q, r)), Mul(Conj(r), Conj(q)));
  }

  lemma MulConj(q: Quat)
    ensures Mul(q, Conj(q)) == Mul(Conj(q), q) == Real(Dot(q, q))
  {
    SignsOf(q.w, q);
    SignsOf(q.x, q);
    SignsOf(q.y, q);
    SignsOf(q.z, q);
    hide Times;
    Same(Mul(q, Conj(q)), Real(Dot(q, q)));
    Same(Mul(Conj(q), q), Real(Dot(q, q)));
  }

  lemma MulOne(q: Quat)
    ensures Mul(q, ONE) == Mul(ONE, q) == q
  {
    TimesZero(q.w);
    TimesZero(q.x);
    TimesZero(q.y);
    TimesZero(q.z);
    Same(Mul(q, ONE), q);
    Same(Mul(ONE, q), q);
  }

  lemma TimesUnit(q: Quat)
    ensures Mul(Quat(0.0, 1.0, 0.0, 0.0), q) == Quat(-q.x, q.w, -q.z, q.y)
    ensures Mul(Quat(0.0, 0.0, 1.0, 0.0), q) == Quat(-q.y, q.z, q.w, -q.x)
    ensures Mul(Quat(0.0, 0.0, 0.0, 1.0), q) == Quat(-q.z, -q.y, q.x, q.w)
  {
    TimesZero(q.w);
    TimesZero(q.x);
    TimesZero(q.y);
    TimesZero(q.z);
    hide Times;
  }

  /** The rule of the imaginary units, which fixes the order of factors and the sense of rotation. */
  lemma UnitProducts()
    ensures var i, j, k := Quat(0.0, 1.0, 0.0, 0.0), Quat(0.0, 0.0, 1.0, 0.0), Quat(0.0, 0.0, 0.0, 1.0);
      && Mul(i, j) == k && Mul(j, k) == i && Mul(k, i) == j
      && Mul(i, i) == Mul(j, j) == Mul(k, k) == Quat(-1.0, 0.0, 0.0, 0.0)
  {
    var i, j, k := Quat(0.0, 1.0, 0.0, 0.0), Quat(0.0, 0.0, 1.0, 0.0), Quat(0.0, 0.0, 0.0, 1.0);
    hide Mul;
    TimesUnit(i);
    TimesUnit(j);
    TimesUnit(k);
  }

  /** A quaternion about the third axis turns the first axis towards the second: from `c` and `s`, the cosine
      and sine of half an angle, to those of the whole. */
  lemma TurnsTowardsSecondAxis(c: real, s: real)
    requires c * c + s * s == 1.0
    ensures var q := Quat(c, 0.0, 0.0, s);
      q != ZERO && Rotate(q, Vec3(1.0, 0.0, 0.0)) == Vec3(c * c - s * s, 2.0 * c * s, 0.0)
  {
    var q, v := Quat(c, 0.0, 0.0, s), Vec3(1.0, 0.0, 0.0);
    assert q == ZERO ==> c * c + s * s == 0.0;
    TimesZero(c);
    TimesZero(s);
    TimesZero(0.0);
    assert Dot(q, q) == 1.0;
    TimesZero(-s);
    assert Inverse(q) == Quat(c, 0.0, 0.0, -s);
    assert Mul(q, Pure(v)) == Quat(0.0, c, s, 0.0);
    TurnedTwice(c, s);
  }

  lemma TurnedTwice(c: real, s: real)
    ensures Imaginary(Mul(Quat(0.0, c, s, 0.0), Quat(c, 0.0, 0.0, -s))) == Vec3(c * c - s * s, 2.0 * c * s, 0.0)
  {
    TimesZero(c);
    TimesZero(s);
    TimesZero(0.0);
    TimesZero(-s);
    assert Times(s, -s) == -(s * s) && Times(c, -s) == -(c * s) && Times(s, c) == c * s;
  }

  /** The squared length of a product is the product of the squared lengths. */
  lemma DotMultiplicative(q: Quat, r: Quat)
    ensures Dot(Mul(q, r), Mul(q, r)) == Times(Dot(q, q), Dot(r, r))
  {
    var qr := Mul(q, r);
    MulConj(qr);
    ConjMul(q, r);
    MulAssociative(q, r, Mul(Conj(r), Conj(q)));
    MulAssociative(r, Conj(r), Conj(q));
    MulConj(r);
    ScaleIsMul(Conj(q), Dot(r, r));
    ScaleMul(q, Conj(q), Dot(r, r));
    MulConj(q);
  }

  lemma InverseIsInverse(q: Quat)
    requires q != ZERO
    ensures Mul(q, Inverse(q)) == Mul(Inverse(q), q) == ONE
  {
    DotIsPositive(q);
    var k := 1.0 / Dot(q, q);
    ScaleMul(q, Conj(q), k);
    ScaleMul(Conj(q), q, k);
    MulConj(q);
    assert Times(Dot(q, q), k) == 1.0;
    TimesZero(k);
    Same(Scale(Real(Dot(q, q)), k), ONE);
  }

  /** No product of non-zero quaternions is zero, and inverses multiply in reverse order. */
  lemma InverseMul(q: Quat, r: Quat)
    requires q != ZERO && r != ZERO
    ensures Mul(q, r) != ZERO
    ensures Inverse(Mul(q, r)) == Mul(Inverse(r), Inverse(q))
  {
    var qr, i, j := Mul(q, r), Inverse(q), Inverse(r);
    InverseIsInverse(q);
    InverseIsInverse(r);
    var ji := Mul(j, i);
    // qr * (j * i) == q * (r * j) * i == ONE
    MulAssociative(q, r, ji);
    MulAssociative(r, j, i);
    MulOne(i);
    assert Mul(qr, ji) == ONE;
    if qr == ZERO {
      TimesZero(ji.w);
      TimesZero(ji.x);
      TimesZero(ji.y);
      TimesZero(ji.z);
      assert false;
    }
    InverseIsInverse(qr);
    MulAssociative(Inverse(qr), qr, ji);
    MulOne(ji);
    MulOne(Inverse(qr));
  }

  // ----- rotations

  /** The conjugation by `q` is again a vector: its real part is zero. */
  lemma RotateIsPure(q: Quat, v: Vec3)
    requires q != ZERO
    ensures Mul(Mul(q, Pure(v)), Inverse(q)) == Pure(Rotate(q, v))
  {
    DotIsPositive(q);
    ScaleMul(Mul(q, Pure(v)), Conj(q), 1.0 / Dot(q, q));
    SandwichReal(q, v);
    TimesZero(1.0 / Dot(q, q));
  }

  lemma SandwichReal(q: Quat, v: Vec3)
    ensures Mul(Mul(q, Pure(v)), Conj(q)).w == 0.0
  {
    MultiplyOut(q, Pure(v), q.w);
    MultiplyOut(q, Pure(v), q.x);
    MultiplyOut(q, Pure(v), q.y);
    MultiplyOut(q, Pure(v), q.z);
    var a := Mul(q, Pure(v));
    Signs(a.x, q.x);
    Signs(a.y, q.y);
    Signs(a.z, q.z);
  }

  /** Rotating by a product is rotating twice. */
  lemma RotateMul(q: Quat, r: Quat, v: Vec3)
    requires q != ZERO && r != ZERO
    ensures Mul(q, r) != ZERO && Rotate(Mul(q, r), v) == Rotate(q, Rotate(r, v))
  {
    InverseMul(q, r);
    var i, j, p := Inverse(q), Inverse(r), Pure(v);
    RotateIsPure(r, v);
    MulAssociative(q, r, p);
    MulAssociative(q, Mul(r, p), Mul(j, i));
    MulAssociative(Mul(r, p), j, i);
    MulAssociative(q, Mul(Mul(r, p), j), i);
  }

  lemma RotatePreservesLength(q: Quat, v: Vec3)
    requires q != ZERO
    ensures Length2(Rotate(q, v)) == Length2(v)
  {
    var i := Inverse(q);
    RotateIsPure(q, v);
    DotMultiplicative(Mul(q, Pure(v)), i);
    DotMultiplicative(q, Pure(v));
    DotMultiplicative(q, i);
    InverseIsInverse(q);
    TimesZero(1.0);
    PureDot(v);
    PureDot(Rotate(q, v));
    Rearrange(Dot(q, q), Length2(v), Dot(i, i));
  }

  lemma PureDot(v: Vec3)
    ensures Dot(Pure(v), Pure(v)) == Length2(v)
  {
    TimesZero(0.0);
  }

  lemma Rearrange(a: real, b: real, c: real)
    requires Times(a, c) == 1.0
    ensures Times(Times(a, b), c) == b
  {
    assert a * b * c == b * (a * c);
  }

  // ----- the rotation matrix

  const E0 := Vec3(1.0, 0.0, 0.0)
  const E1 := Vec3(0.0, 1.0, 0.0)
  const E2 := Vec3(0.0, 0.0, 1.0)

  function Add(p: Quat, q: Quat): (r: Quat) {
    Quat(p.w + q.w, p.x + q.x, p.y + q.y, p.z + q.z)
  }

  lemma TimesAdd(a: real, b: real, u: real)
    ensures Times(a + b, u) == Times(a, u) + Times(b, u)
    ensures Times(u, a + b) == Times(u, a) + Times(u, b)
  {
  }

  lemma TimesAddAll(a: real, b: real, q: Quat)
    ensures Times(a + b, q.w) == Times(a, q.w) + Times(b, q.w) && Times(q.w, a + b) == Times(q.w, a) + Times(q.w, b)
    ensures Times(a + b, q.x) == Times(a, q.x) + Times(b, q.x) && Times(q.x, a + b) == Times(q.x, a) + Times(q.x, b)
    ensures Times(a + b, q.y) == Times(a, q.y) + Times(b, q.y) && Times(q.y, a + b) == Times(q.y, a) + Times(q.y, b)
    ensures Times(a + b, q.z) == Times(a, q.z) + Times(b, q.z) && Times(q.z, a + b) == Times(q.z, a) + Times(q.z, b)
  {
    TimesAdd(a, b, q.w);
    TimesAdd(a, b, q.x);
    TimesAdd(a, b, q.y);
    TimesAdd(a, b, q.z);
  }

  lemma MulAdd(p: Quat, q: Quat, r: Quat)
    ensures Mul(r, Add(p, q)) == Add(Mul(r, p), Mul(r, q))
    ensures Mul(Add(p, q), r) == Add(Mul(p, r), Mul(q, r))
  {
    TimesAddAll(p.w, q.w, r);
    TimesAddAll(p.x, q.x, r);
    TimesAddAll(p.y, q.y, r);
    TimesAddAll(p.z, q.z, r);
    hide Times;
    Same(Mul(r, Add(p, q)), Add(Mul(r, p), Mul(r, q)));
    Same(Mul(Add(p, q), r), Add(Mul(p, r), Mul(q, r)));
  }

  lemma RotateAdd(q: Quat, u: Vec3, v: Vec3)
    requires q != ZERO
    ensures Rotate(q, Plus(u, v)) == Plus(Rotate(q, u), Rotate(q, v))
  {
    assert Pure(Plus(u, v)) == Add(Pure(u), Pure(v));
    MulAdd(Pure(u), Pure(v), q);
    MulAdd(Mul(q, Pure(u)), Mul(q, Pure(v)), Inverse(q));
  }

  lemma RotateScale(q: Quat, v: Vec3, s: real)
    requires q != ZERO
    ensures Rotate(q, Weighted(v, s)) == Weighted(Rotate(q, v), s)
  {
    TimesZero(s);
    assert Pure(Weighted(v, s)) == Scale(Pure(v), s);
    ScaleMul(q, Pure(v), s);
    ScaleMul(Mul(q, Pure(v)), Inverse(q), s);
  }

  /** A vector is the sum of its components along the axes. */
  lemma Axes(v: Vec3)
    ensures v == Plus(Plus(Weighted(E0, v.x), Weighted(E1, v.y)), Weighted(E2, v.z))
  {
    TimesZero(v.x);
    TimesZero(v.y);
    TimesZero(v.z);
  }

  /** With `k` the reciprocal of the squared length and `s` its double, the entries of the matrix
      are doubled products of components times `k`. */
  lemma Entry(s: real, k: real, a: real, b: real)
    requires s == 2.0 * k
    ensures Times(Times(s, a), b) == Times(Times(a, b) + Times(a, b), k)
    ensures Times(Times(s, a), b) == Times(Times(a, b), k) + Times(Times(a, b), k)
    ensures Times(Times(s, a), b) == Times(Times(s, b), a)
  {
  }

  lemma DiagonalEntry(n: real, s: real, k: real, a: real, b: real)
    requires s == 2.0 * k && Times(n, k) == 1.0
    ensures Times(n - 2.0 * Times(a, a) - 2.0 * Times(b, b), k) == 1.0 - Times(Times(s, a), a) - Times(Times(s, b), b)
  {
    assert (n - 2.0 * (a * a) - 2.0 * (b * b)) * k == n * k - 2.0 * (a * a) * k - 2.0 * (b * b) * k;
  }

  lemma OffDiagonalEntry(s: real, k: real, a: real, b: real, c: real, d: real)
    requires s == 2.0 * k
    ensures Times(2.0 * Times(a, b) + 2.0 * Times(c, d), k) == Times(Times(s, a), b) + Times(Times(s, c), d)
    ensures Times(2.0 * Times(a, b) - 2.0 * Times(c, d), k) == Times(Times(s, a), b) - Times(Times(s, c), d)
  {
  }

  lemma SandwichE0(q: Quat)
    ensures var n, t := Dot(q, q), Mul(Mul(q, Pure(E0)), Conj(q));
      && t.x == n - 2.0 * Times(q.y, q.y) - 2.0 * Times(q.z, q.z)
      && t.y == 2.0 * Times(q.x, q.y) + 2.0 * Times(q.z, q.w)
      && t.z == 2.0 * Times(q.x, q.z) - 2.0 * Times(q.y, q.w)
  {
    TimesZero(q.w);
    TimesZero(q.x);
    TimesZero(q.y);
    TimesZero(q.z);
    Same(Mul(q, Pure(E0)), Quat(-q.x, q.w, q.z, -q.y));
    SignsOf(q.w, q);
    SignsOf(q.x, q);
    SignsOf(q.y, q);
    SignsOf(q.z, q);
  }

  /** The first column of the matrix is the image of the first axis. */
  lemma ColumnE0(q: Quat)
    requires q != ZERO
    ensures Rotate(q, E0) == RotationMatrix(q).c0
  {
    DotIsPositive(q);
    var n, k := Dot(q, q), 1.0 / Dot(q, q);
    var s := 2.0 / n;
    assert s == 2.0 * k && Times(n, k) == 1.0;
    ScaleMul(Mul(q, Pure(E0)), Conj(q), k);
    SandwichE0(q);
    DiagonalEntry(n, s, k, q.y, q.z);
    OffDiagonalEntry(s, k, q.x, q.y, q.z, q.w);
    OffDiagonalEntry(s, k, q.x, q.z, q.y, q.w);
  }

  function TurnVec(v: Vec3): (u: Vec3) {
    Vec3(v.y, v.z, v.x)
  }

  lemma TurnRotate(q: Quat, v: Vec3)
    requires q != ZERO
    ensures Turn(q) != ZERO
    ensures Rotate(Turn(q), TurnVec(v)) == TurnVec(Rotate(q, v))
  {
    assert Dot(Turn(q), Turn(q)) == Dot(q, q);
    assert Pure(TurnVec(v)) == Turn(Pure(v));
    assert Inverse(Turn(q)) == Turn(Inverse(q));
    TurnMul(q, Pure(v));
    TurnMul(Mul(q, Pure(v)), Inverse(q));
  }

  /** Renaming the axes permutes the matrix. */
  lemma TurnMatrix(q: Quat)
    ensures TurnVec(RotationMatrix(q).c1) == RotationMatrix(Turn(q)).c0
    ensures TurnVec(RotationMatrix(q).c2) == RotationMatrix(Turn(q)).c1
  {
    var n := Dot(q, q);
    assert Dot(Turn(q), Turn(q)) == n;
    var s := if n > 0.0 then 2.0 / n else 0.0;
    Entry(s, s / 2.0, q.x, q.y);
    Entry(s, s / 2.0, q.x, q.z);
    Entry(s, s / 2.0, q.y, q.z);
    Entry(s, s / 2.0, q.x, q.w);
  }

  /** The columns of the matrix are the images of the axes. */
  lemma Columns(q: Quat)
    requires q != ZERO
    ensures RotationMatrix(q) == Mat3(Rotate(q, E0), Rotate(q, E1), Rotate(q, E2))
  {
    ColumnE0(q);
    TurnRotate(q, E1);
    TurnMatrix(q);
    ColumnE0(Turn(q));
    TurnRotate(q, E2);
    TurnRotate(Turn(q), E1);
    TurnMatrix(Turn(q));
    ColumnE0(Turn(Turn(q)));
  }

  /** The matrix of a non-zero quaternion acts on every vector as the quaternion does. */
  lemma MatrixRotates(q: Quat, v: Vec3)
    requires q != ZERO
    ensures Apply(RotationMatrix(q), v) == Rotate(q, v)
  {
    Axes(v);
    Columns(q);
    var u := Plus(Weighted(E0, v.x), Weighted(E1, v.y));
    RotateAdd(q, u, Weighted(E2, v.z));
    RotateAdd(q, Weighted(E0, v.x), Weighted(E1, v.y));
    RotateScale(q, E0, v.x);
    RotateScale(q, E1, v.y);
    RotateScale(q, E2, v.z);
  }

  /** The matrix of a product of non-zero quaternions is the product of their matrices. */
  lemma MatrixOfProduct(q: Quat, r: Quat)
    requires q != ZERO && r != ZERO
    ensures RotationMatrix(Mul(q, r)) == Product(RotationMatrix(q), RotationMatrix(r))
  {
    RotateMul(q, r, E0);
    RotateMul(q, r, E1);
    RotateMul(q, r, E2);
    Columns(Mul(q, r));
    Columns(r);
    MatrixRotates(q, Rotate(r, E0));
    MatrixRotates(q, Rotate(r, E1));
    MatrixRotates(q, Rotate(r, E2));
  }

  /** The matrix of a non-zero quaternion keeps lengths. */
  lemma MatrixPreservesLength(q: Quat, v: Vec3)
    requires q != ZERO
    ensures Length2(Apply(RotationMatrix(q), v)) == Length2(v)
  {
    MatrixRotates(q, v);
    RotatePreservesLength(q, v);
  }

  /** The matrix of the inverse quaternion undoes the matrix. */
  lemma MatrixOfInverse(q: Quat)
    requires q != ZERO
    ensures Inverse(q) != ZERO
    ensures Product(RotationMatrix(q), RotationMatrix(Inverse(q))) == IDENTITY
    ensures Product(RotationMatrix(Inverse(q)), RotationMatrix(q)) == IDENTITY
  {
    InverseIsInverse(q);
    TimesZero(q.w);
    TimesZero(q.x);
    TimesZero(q.y);
    TimesZero(q.z);
    assert Inverse(q) != ZERO;
    MatrixOfProduct(q, Inverse(q));
    MatrixOfProduct(Inverse(q), q);
    IdentityMatrix();
  }

  lemma IdentityMatrix()
    ensures RotationMatrix(ONE) == RotationMatrix(ZERO) == IDENTITY
  {
    TimesZero(0.0);
    TimesZero(1.0);
    TimesZero(2.0);
    assert Dot(ONE, ONE) == 1.0 && Dot(ZERO, ZERO) == 0.0;
    hide Times, Dot;
  }

  /** The constructor of a matrix from a quaternion, column after column: it rotates every vector as the
      quaternion does, and is the identity for the zero quaternion. */
  method MatrixFromQuaternion(q: Quat) returns (m: Mat3)
    ensures q == ZERO ==> m == IDENTITY
    ensures q != ZERO ==> forall v :: Apply(m, v) == Rotate(q, v)
    ensures m == RotationMatrix(q)
  {
    var n := Dot(q, q);
    var s := if n > 0.0 then 2.0 / n else 0.0;
    var x, y, z := Times(s, q.x), Times(s, q.y), Times(s, q.z);
    var xx, xy, xz, xw := Times(x, q.x), Times(x, q.y), Times(x, q.z), Times(x, q.w);
    var yy, yz, yw := Times(y, q.y), Times(y, q.z), Times(y, q.w);
    var zz, zw := Times(z, q.z), Times(z, q.w);
    m := *;
    m := m.(c0 := Vec3(1.0 - yy - zz, xy + zw, xz - yw));
    m := m.(c1 := Vec3(xy - zw, 1.0 - xx - zz, yz + xw));
    m := m.(c2 := Vec3(xz + yw, yz - xw, 1.0 - xx - yy));
    assert m == RotationMatrix(q);
    hide RotationMatrix, Apply, Rotate, Times, Dot;
    MatrixMeaning(q);
  }

  lemma MatrixMeaning(q: Quat)
    ensures q == ZERO ==> RotationMatrix(q) == IDENTITY
    ensures q != ZERO ==> forall v :: Apply(RotationMatrix(q), v) == Rotate(q, v)
  {
    IdentityMatrix();
    hide RotationMatrix, Apply, Rotate;
    if q != ZERO {
      forall v
        ensures Apply(RotationMatrix(q), v) == Rotate(q, v)
      {
        MatrixRotates(q, v);
      }
    }
  }

  // ----- the same matrices as sequences of columns

  function AsVector(v: Vec3): (u: Matrices.Vector)
    ensures |u| == 3
  {
    [v.x, v.y, v.z]
  }

  function AsMatrix(m: Mat3): (a: Matrices.Matrix)
    ensures Matrices.IsSquare(a, 3)
  {
    [AsVector(m.c0), AsVector(m.c1), AsVector(m.c2)]
  }

  lemma PlusWeighted(u: Vec3, c: Vec3, s: real)
    ensures Matrices.AddScaled(AsVector(u), s, AsVector(c)) == AsVector(Plus(u, Weighted(c, s)))
  {
    var sum := Plus(u, Weighted(c, s));
    assert sum.x == u.x + s * c.x && sum.y == u.y + s * c.y && sum.z == u.z + s * c.z;
    var r := Matrices.AddScaled(AsVector(u), s, AsVector(c));
    assert r[0] == u.x + s * c.x && r[1] == u.y + s * c.y && r[2] == u.z + s * c.z;
    assert r == [r[0], r[1], r[2]];
  }

  lemma PlusNothing(v: Vec3)
    ensures Plus(Vec3(0.0, 0.0, 0.0), v) == v
  {
  }

  /** The matrix-by-vector product of three columns is the one of any number of columns. */
  lemma ApplyIsGeneral(m: Mat3, v: Vec3)
    ensures Matrices.Apply(AsMatrix(m), AsVector(v)) == AsVector(Apply(m, v))
  {
    hide Plus, Weighted;
    var a, x := AsMatrix(m), AsVector(v);
    var u0 := Weighted(m.c0, v.x);
    var u1 := Plus(u0, Weighted(m.c1, v.y));
    assert Matrices.CombineTo(a, x, 0) == AsVector(Vec3(0.0, 0.0, 0.0));
    PlusWeighted(Vec3(0.0, 0.0, 0.0), m.c0, v.x);
    PlusNothing(u0);
    assert Matrices.CombineTo(a, x, 1) == AsVector(u0);
    PlusWeighted(u0, m.c1, v.y);
    assert Matrices.CombineTo(a, x, 2) == AsVector(u1);
    PlusWeighted(u1, m.c2, v.z);
  }

  lemma ProductIsGeneral(a: Mat3, b: Mat3)
    ensures Matrices.Product(AsMatrix(a), AsMatrix(b)) == AsMatrix(Product(a, b))
  {
    hide Apply;
    ApplyIsGeneral(a, b.c0);
    ApplyIsGeneral(a, b.c1);
    ApplyIsGeneral(a, b.c2);
    var p := Matrices.Product(AsMatrix(a), AsMatrix(b));
    assert p == [p[0], p[1], p[2]];
  }
}
