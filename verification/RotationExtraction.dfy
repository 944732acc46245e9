/** The quaternion of a rotation matrix. The square root is a parameter: any function that gives
    the non-negative root of every non-negative real. */
module RotationExtraction {
  import opened Quaternions

  ghost predicate IsSquareRoot(sqrt: real -> real) {
    forall x: real | x >= 0.0 :: sqrt(x) >= 0.0 && Times(sqrt(x), sqrt(x)) == x
  }

  function Component(v: Vec3, r: nat): (d: real)
    requires r < 3
  {
    if r == 0 then v.x else if r == 1 then v.y else v.z
  }

  /** The entry in column `c` and row `r`. */
  function Cell(m: Mat3, c: nat, r: nat): (d: real)
    requires c < 3 && r < 3
  {
    Component(if c == 0 then m.c0 else if c == 1 then m.c1 else m.c2, r)
  }

  function With(q: Quat, i: nat, value: real): (p: Quat)
    requires i < 3
  {
    if i == 0 then q.(x := value) else if i == 1 then q.(y := value) else q.(z := value)
  }

  function Trace(m: Mat3): (d: real) {
    Cell(m, 0, 0) + Cell(m, 1, 1) + Cell(m, 2, 2)
  }

  /** The value whose root is taken when diagonal entry `i` leads. */
  function Radicand(m: Mat3, i: nat): (d: real)
    requires i < 3
  {
    var j, k := (i + 1) % 3, (i + 2) % 3;
    Cell(m, i, i) - (Cell(m, j, j) + Cell(m, k, k)) + 1.0
  }

  function Negated(q: Quat): (p: Quat) {
    Quat(-q.w, -q.x, -q.y, -q.z)
  }

  /** For any matrix whatever with a non-positive trace, the radicand at a greatest diagonal entry is
      at least one. So its root is never zero, and the guard against dividing by zero never trips. */
  lemma RadicandAtLeastOne(m: Mat3, i: nat)
    requires i < 3 && Trace(m) <= 0.0
    requires forall c | 0 <= c < 3 :: Cell(m, c, c) <= Cell(m, i, i)
    ensures Radicand(m, i) >= 1.0
  {
    var j, k := (i + 1) % 3, (i + 2) % 3;
    assert Cell(m, j, j) <= Cell(m, i, i) && Cell(m, k, k) <= Cell(m, i, i);
    assert Cell(m, i, i) + Cell(m, j, j) + Cell(m, k, k) == Trace(m);
  }

  /** Component `a` of a quaternion, in storage order: x, y, z, w. */
  function Part(q: Quat, a: nat): (d: real)
    requires a < 4
  {
    if a == 0 then q.x else if a == 1 then q.y else if a == 2 then q.z else q.w
  }

  /** The 4x4 table that a matrix of a unit quaternion `q` fills with `4 * q[a] * q[b]`. */
  function Outer(m: Mat3, a: nat, b: nat): (d: real)
    requires a < 4 && b < 4
  {
    if a == 3 && b == 3 then Trace(m) + 1.0
    else if a == 3 then Skew(m, b)
    else if b == 3 then Skew(m, a)
    else if a == b then Radicand(m, a)
    else Cell(m, a, b) + Cell(m, b, a)
  }

  function Skew(m: Mat3, i: nat): (d: real)
    requires i < 3
  {
    var j, k := (i + 1) % 3, (i + 2) % 3;
    Cell(m, j, k) - Cell(m, k, j)
  }

  /** Every row of the table is a multiple of every other. */
  ghost predicate RankOne(m: Mat3) {
    forall i: nat, a: nat, b: nat | i < 4 && a < 4 && b < 4 ::
      Times(Outer(m, i, a), Outer(m, i, b)) == Times(Outer(m, i, i), Outer(m, a, b))
  }

  /** The table of `m` is that of `q`. */
  ghost predicate HasTable(q: Quat, m: Mat3) {
    forall a: nat, b: nat | a < 4 && b < 4 :: 4.0 * Times(Part(q, a), Part(q, b)) == Outer(m, a, b)
  }

  lemma ScaledRow(u: real, v: real, s: real, d: real, t: real)
    requires s > 0.0 && Times(s, s) == d && Times(u, v) == Times(d, t)
    ensures 4.0 * Times(Times(u, 0.5 / s), Times(v, 0.5 / s)) == t
  {
    var h := 0.5 / s;
    assert h * s == 0.5;
    assert (h * s) * (h * s) == 0.25;
    assert (h * h) * (s * s) == 0.25;
    assert (u * h) * (v * h) == (u * v) * (h * h);
    assert (u * v) * (h * h) == (d * t) * (h * h);
    assert (d * t) * (h * h) == t * ((h * h) * d);
  }

  /** A quaternion read off one row of the table whose diagonal entry is positive has that table. */
  lemma FromRow(m: Mat3, i: nat, s: real, q: Quat)
    requires i < 4 && s > 0.0 && Times(s, s) == Outer(m, i, i) && RankOne(m)
    requires forall a: nat | a < 4 :: Part(q, a) == Times(Outer(m, i, a), 0.5 / s)
    ensures HasTable(q, m)
  {
    forall a: nat, b: nat | a < 4 && b < 4
      ensures 4.0 * Times(Part(q, a), Part(q, b)) == Outer(m, a, b)
    {
      ScaledRow(Outer(m, i, a), Outer(m, i, b), s, Outer(m, i, i), Outer(m, a, b));
    }
  }

  lemma HalfRoot(s: real)
    requires s > 0.0
    ensures 0.5 * s == Times(Times(s, s), 0.5 / s)
  {
    var h := 0.5 / s;
    assert h * s == 0.5;
    assert (s * s) * h == s * (h * s);
  }

  /** Diagonal entry `i` is the first of the greatest. */
  predicate IsLeading(m: Mat3, i: nat)
    requires i < 3
  {
    && (forall c | 0 <= c < 3 :: Cell(m, c, c) <= Cell(m, i, i))
    && (forall c | 0 <= c < i :: Cell(m, c, c) < Cell(m, i, i))
  }

  /** Of the two quaternions that differ in sign, the one whose `w` is positive if the trace is, and otherwise
      the one whose component at the leading diagonal entry is. */
  predicate LeadsPositive(q: Quat, m: Mat3) {
    if Trace(m) > 0.0 then q.w > 0.0
    else forall i | 0 <= i < 3 && IsLeading(m, i) :: Part(q, i) > 0.0
  }

  /** On every matrix whose table has rank one, the extracted quaternion has that table: this covers
      all rotation matrices (RotationTable) and all matrices of unit quaternions (UnitTable). */
  method ExtractQuat(mat: Mat3, sqrt: real -> real) returns (quat: Quat)
    requires IsSquareRoot(sqrt)
    ensures RankOne(mat) ==> HasTable(quat, mat)
    ensures LeadsPositive(quat, mat)
  {
    var trace := Cell(mat, 0, 0) + Cell(mat, 1, 1) + Cell(mat, 2, 2);
    if trace > 0.0 {
      quat := FromTrace(mat, trace, sqrt);
    } else {
      quat := FromDiagonal(mat, sqrt);
    }
  }

  method FromTrace(mat: Mat3, trace: real, sqrt: real -> real) returns (quat: Quat)
    requires IsSquareRoot(sqrt) && trace == Trace(mat) && trace > 0.0
    ensures RankOne(mat) ==> HasTable(quat, mat)
    ensures quat.w > 0.0
  {
    quat := *;
    var s := sqrt(trace + 1.0);
    ghost var root := s;
    NonZeroRoot(trace + 1.0, s);
    HalfRoot(s);
    quat := quat.(w := 0.5 * s);
    s := 0.5 / s;
    quat := quat.(x := Times(Cell(mat, 1, 2) - Cell(mat, 2, 1), s));
    quat := quat.(y := Times(Cell(mat, 2, 0) - Cell(mat, 0, 2), s));
    quat := quat.(z := Times(Cell(mat, 0, 1) - Cell(mat, 1, 0), s));
    if RankOne(mat) {
      FromRow(mat, 3, root, quat);
    }
  }

  method FromDiagonal(mat: Mat3, sqrt: real -> real) returns (quat: Quat)
    requires IsSquareRoot(sqrt) && Trace(mat) <= 0.0
    ensures RankOne(mat) ==> HasTable(quat, mat)
    ensures LeadsPositive(quat, mat)
  {
    quat := *;
    var i := 0;
    if Cell(mat, 1, 1) > Cell(mat, 0, 0) { i := 1; }
    if Cell(mat, 2, 2) > Cell(mat, i, i) { i := 2; }
    var nextIjk := [1, 2, 0];
    var j := nextIjk[i];
    var k := nextIjk[j];
    RadicandAtLeastOne(mat, i);
    var s := sqrt((Cell(mat, i, i) - (Cell(mat, j, j) + Cell(mat, k, k))) + 1.0);
    ghost var root := s;
    NonZeroRoot(Radicand(mat, i), s);
    HalfRoot(s);
    quat := With(quat, i, 0.5 * s);
    if s != 0.0 {
      s := 0.5 / s;
    }
    quat := quat.(w := Times(Cell(mat, j, k) - Cell(mat, k, j), s));
    quat := With(quat, j, Times(Cell(mat, i, j) + Cell(mat, j, i), s));
    quat := With(quat, k, Times(Cell(mat, i, k) + Cell(mat, k, i), s));
    assert Part(quat, i) == 0.5 * root > 0.0 && IsLeading(mat, i);
    if RankOne(mat) {
      FromRow(mat, i, root, quat);
    }
  }

  lemma NonZeroRoot(x: real, s: real)
    requires x > 0.0 && s >= 0.0 && Times(s, s) == x
    ensures s > 0.0
  {
    TimesZero(s);
  }

  // ----- matrices of unit quaternions

  lemma UnitCoefficient(q: Quat)
    requires Dot(q, q) == 1.0
    ensures q != ZERO
    ensures var n := Dot(q, q); (if n > 0.0 then 2.0 / n else 0.0) == 2.0
  {
    DotIsPositive(q);
  }

  lemma Doubled(a: real, b: real)
    ensures Times(Times(2.0, a), b) == 2.0 * Times(a, b) == 2.0 * Times(b, a)
  {
  }

  lemma UnitMatrix(q: Quat)
    requires Dot(q, q) == 1.0
    ensures var m := RotationMatrix(q);
      && m.c0.x == 1.0 - 2.0 * Times(q.y, q.y) - 2.0 * Times(q.z, q.z)
      && m.c1.y == 1.0 - 2.0 * Times(q.x, q.x) - 2.0 * Times(q.z, q.z)
      && m.c2.z == 1.0 - 2.0 * Times(q.x, q.x) - 2.0 * Times(q.y, q.y)
      && m.c0.y == 2.0 * Times(q.x, q.y) + 2.0 * Times(q.z, q.w)
      && m.c1.x == 2.0 * Times(q.x, q.y) - 2.0 * Times(q.z, q.w)
      && m.c0.z == 2.0 * Times(q.x, q.z) - 2.0 * Times(q.y, q.w)
      && m.c2.x == 2.0 * Times(q.x, q.z) + 2.0 * Times(q.y, q.w)
      && m.c1.z == 2.0 * Times(q.y, q.z) + 2.0 * Times(q.x, q.w)
      && m.c2.y == 2.0 * Times(q.y, q.z) - 2.0 * Times(q.x, q.w)
  {
    UnitCoefficient(q);
    Doubled(q.x, q.x);
    Doubled(q.x, q.y);
    Doubled(q.x, q.z);
    Doubled(q.x, q.w);
    Doubled(q.y, q.y);
    Doubled(q.y, q.z);
    Doubled(q.y, q.w);
    Doubled(q.z, q.z);
    Doubled(q.z, q.w);
  }

  lemma Commute(a: real, b: real)
    ensures Times(a, b) == Times(b, a)
  {
  }

  lemma UnitDiagonal(q: Quat)
    requires Dot(q, q) == 1.0
    ensures forall a: nat | a < 4 :: 4.0 * Times(Part(q, a), Part(q, a)) == Outer(RotationMatrix(q), a, a)
  {
    UnitMatrix(q);
    hide Times, RotationMatrix;
  }

  lemma UnitOffDiagonal(q: Quat)
    requires Dot(q, q) == 1.0
    ensures forall a: nat, b: nat | a < b < 4 :: 4.0 * Times(Part(q, a), Part(q, b)) == Outer(RotationMatrix(q), a, b)
  {
    UnitMatrix(q);
    hide Times, RotationMatrix;
  }

  /** The table is symmetric. */
  lemma TableFromHalf(q: Quat, m: Mat3)
    requires forall a: nat | a < 4 :: 4.0 * Times(Part(q, a), Part(q, a)) == Outer(m, a, a)
    requires forall a: nat, b: nat | a < b < 4 :: 4.0 * Times(Part(q, a), Part(q, b)) == Outer(m, a, b)
    ensures HasTable(q, m)
  {
    hide Times, Part;
    forall a: nat, b: nat | b < a < 4
      ensures 4.0 * Times(Part(q, a), Part(q, b)) == Outer(m, a, b)
    {
      Commute(Part(q, a), Part(q, b));
      assert Outer(m, a, b) == Outer(m, b, a);
    }
    hide Outer;
  }

  /** The matrix of a unit quaternion has the quaternion's table. */
  lemma UnitTable(q: Quat)
    requires Dot(q, q) == 1.0
    ensures HasTable(q, RotationMatrix(q))
  {
    var m := RotationMatrix(q);
    hide Times, RotationMatrix, HasTable;
    UnitDiagonal(q);
    UnitOffDiagonal(q);
    TableFromHalf(q, m);
  }

  lemma Exchange(u: real, v: real, w: real)
    ensures Times(Times(w, u), Times(w, v)) == Times(Times(w, w), Times(u, v))
  {
  }

  lemma Quadrupled(u: real, v: real)
    ensures Times(4.0 * u, 4.0 * v) == 16.0 * Times(u, v)
  {
  }

  lemma TableIsRankOne(q: Quat, m: Mat3)
    requires HasTable(q, m)
    ensures RankOne(m)
  {
    forall i: nat, a: nat, b: nat | i < 4 && a < 4 && b < 4
      ensures Times(Outer(m, i, a), Outer(m, i, b)) == Times(Outer(m, i, i), Outer(m, a, b))
    {
      var w, u, v := Part(q, i), Part(q, a), Part(q, b);
      Exchange(u, v, w);
      Quadrupled(Times(w, u), Times(w, v));
      Quadrupled(Times(w, w), Times(u, v));
    }
  }

  /** The table fixes the matrix, and forces unit length. */
  lemma TableFixesMatrix(q: Quat, m: Mat3)
    requires HasTable(q, m)
    ensures Dot(q, q) == 1.0 && RotationMatrix(q) == m
  {
    assert forall a: nat | a < 4 :: 4.0 * Times(Part(q, a), Part(q, a)) == Outer(m, a, a);
    assert Outer(m, 0, 0) + Outer(m, 1, 1) + Outer(m, 2, 2) + Outer(m, 3, 3) == 4.0;
    assert Dot(q, q) == 1.0;
    UnitTable(q);
    SameTableSameMatrix(RotationMatrix(q), m);
  }

  lemma SameTableSameMatrix(m: Mat3, n: Mat3)
    requires forall a: nat, b: nat | a < 4 && b < 4 :: Outer(m, a, b) == Outer(n, a, b)
    ensures m == n
  {
    assert Outer(m, 3, 3) == Outer(n, 3, 3) && Outer(m, 0, 0) == Outer(n, 0, 0);
    assert Outer(m, 1, 1) == Outer(n, 1, 1) && Outer(m, 2, 2) == Outer(n, 2, 2);
    assert Outer(m, 3, 0) == Outer(n, 3, 0) && Outer(m, 1, 2) == Outer(n, 1, 2);
    assert Outer(m, 3, 1) == Outer(n, 3, 1) && Outer(m, 2, 0) == Outer(n, 2, 0);
    assert Outer(m, 3, 2) == Outer(n, 3, 2) && Outer(m, 0, 1) == Outer(n, 0, 1);
  }

  /** Quaternions with the same table are equal up to sign. */
  lemma TableFixesQuaternion(p: Quat, q: Quat, m: Mat3)
    requires HasTable(p, m) && HasTable(q, m)
    ensures q == p || q == Negated(p)
  {
    TableFixesMatrix(q, m);
    var a: nat :| a < 4 && Part(q, a) != 0.0 by { NonZeroPart(q); }
    forall b: nat | b < 4
      ensures Times(Part(p, a), Part(p, b)) == Times(Part(q, a), Part(q, b))
    {
      assert 4.0 * Times(Part(p, a), Part(p, b)) == Outer(m, a, b) == 4.0 * Times(Part(q, a), Part(q, b));
    }
    EqualSquares(Part(p, a), Part(q, a));
    forall b: nat | b < 4
      ensures Part(p, a) == Part(q, a) ==> Part(q, b) == Part(p, b)
      ensures Part(p, a) == -Part(q, a) ==> Part(q, b) == -Part(p, b)
    {
      Cancel(Part(q, a), Part(p, b), Part(q, b));
      Cancel(Part(q, a), -Part(p, b), Part(q, b));
      Signs(Part(q, a), Part(p, b));
    }
    assert q.x == Part(q, 0) && q.y == Part(q, 1) && q.z == Part(q, 2) && q.w == Part(q, 3);
    assert p.x == Part(p, 0) && p.y == Part(p, 1) && p.z == Part(p, 2) && p.w == Part(p, 3);
  }

  lemma NonZeroPart(q: Quat)
    requires Dot(q, q) == 1.0
    ensures exists a: nat :: a < 4 && Part(q, a) != 0.0
  {
    UnitCoefficient(q);
    assert Part(q, 0) != 0.0 || Part(q, 1) != 0.0 || Part(q, 2) != 0.0 || Part(q, 3) != 0.0;
  }

  lemma EqualSquares(u: real, v: real)
    requires Times(u, u) == Times(v, v)
    ensures u == v || u == -v
  {
    assert (u - v) * (u + v) == 0.0;
  }

  lemma Cancel(w: real, u: real, v: real)
    requires w != 0.0
    ensures Times(w, u) == Times(w, v) ==> u == v
  {
    assert w * u - w * v == w * (u - v);
  }

  /** On the matrix of any unit quaternion, extraction gives that quaternion back, up to sign. */
  method ExtractFromUnit(q: Quat, sqrt: real -> real) returns (r: Quat)
    requires Dot(q, q) == 1.0 && IsSquareRoot(sqrt)
    ensures r == q || r == Negated(q)
    ensures LeadsPositive(r, RotationMatrix(q))
  {
    UnitTable(q);
    TableIsRankOne(q, RotationMatrix(q));
    r := ExtractQuat(RotationMatrix(q), sqrt);
    TableFixesQuaternion(q, r, RotationMatrix(q));
  }

  // ----- rotation matrices

  function Inner(u: Vec3, v: Vec3): (d: real) {
    Times(u.x, v.x) + Times(u.y, v.y) + Times(u.z, v.z)
  }

  function Cross(u: Vec3, v: Vec3): (w: Vec3) {
    Vec3(Times(u.y, v.z) - Times(u.z, v.y), Times(u.z, v.x) - Times(u.x, v.z), Times(u.x, v.y) - Times(u.y, v.x))
  }

  /** The columns are unit vectors, pairwise orthogonal, and right-handed. */
  predicate IsRotation(m: Mat3) {
    && Inner(m.c0, m.c0) == Inner(m.c1, m.c1) == 1.0
    && Inner(m.c0, m.c1) == 0.0
    && m.c2 == Cross(m.c0, m.c1)
  }

  /** The quaternion product of two vectors holds their inner and cross products. */
  lemma PureMul(u: Vec3, v: Vec3)
    ensures Mul(Pure(u), Pure(v)) == Quat(-Inner(u, v), Cross(u, v).x, Cross(u, v).y, Cross(u, v).z)
  {
    TimesZero(0.0);
    TimesZero(u.x);
    TimesZero(u.y);
    TimesZero(u.z);
    TimesZero(v.x);
    TimesZero(v.y);
    TimesZero(v.z);
    Same(Mul(Pure(u), Pure(v)), Quat(-Inner(u, v), Cross(u, v).x, Cross(u, v).y, Cross(u, v).z));
  }

  /** Two orthonormal vectors and their cross product form a right-handed frame, in every order. */
  lemma Frame(u: Vec3, v: Vec3, w: Vec3)
    requires Inner(u, u) == Inner(v, v) == 1.0 && Inner(u, v) == 0.0 && w == Cross(u, v)
    ensures Inner(w, w) == 1.0 && Inner(v, w) == 0.0 && Inner(w, u) == 0.0
    ensures Cross(v, w) == u && Cross(w, u) == v
  {
    var p, q, r := Pure(u), Pure(v), Pure(w);
    PureMul(u, u);
    PureMul(v, v);
    PureMul(u, v);
    PureMul(v, u);
    PureMul(v, w);
    PureMul(w, u);
    PureMul(w, w);
    var minus := Real(-1.0);
    assert Mul(p, p) == minus && Mul(q, q) == minus && Mul(p, q) == r by {
      CrossSelf(u);
      CrossSelf(v);
    }
    Anticommute(u, v);
    assert Mul(q, p) == Mul(minus, r);
    // w u == (u v) u == u (v u) == - u u v == v
    Reorder(p, q, r);
  }

  lemma CrossSelf(u: Vec3)
    ensures Cross(u, u) == Vec3(0.0, 0.0, 0.0)
  {
  }

  lemma Anticommute(u: Vec3, v: Vec3)
    requires Inner(u, v) == 0.0
    ensures Mul(Pure(v), Pure(u)) == Mul(Real(-1.0), Mul(Pure(u), Pure(v)))
  {
    PureMul(u, v);
    PureMul(v, u);
    ScaleIsMul(Mul(Pure(u), Pure(v)), -1.0);
    Same(Mul(Pure(v), Pure(u)), Scale(Mul(Pure(u), Pure(v)), -1.0));
  }

  lemma Reorder(p: Quat, q: Quat, r: Quat)
    requires Mul(p, p) == Mul(q, q) == Real(-1.0) && r == Mul(p, q) && Mul(q, p) == Mul(Real(-1.0), r)
    ensures Mul(q, r) == p && Mul(r, p) == q && Mul(r, r) == Real(-1.0)
  {
    var minus := Real(-1.0);
    MinusTwice(p);
    MinusTwice(q);
    ScaleIsMul(p, -1.0);
    ScaleIsMul(q, -1.0);
    ScaleIsMul(r, -1.0);
    // r p == p (q p) == p (-r) == -(p p) q == q
    MulAssociative(p, q, p);
    MulAssociative(p, minus, r);
    MulAssociative(p, r, minus);
    MulAssociative(minus, p, r);
    MulAssociative(p, p, q);
    assert Mul(p, r) == Mul(minus, q);
    assert Mul(r, p) == Mul(minus, Mul(p, r));
    // q r == (q p) q == -r q == -p (q q) == p
    MulAssociative(q, p, q);
    MulAssociative(minus, r, q);
    MulAssociative(p, q, q);
    assert Mul(r, q) == Mul(minus, p);
    // r r == (r p) q == q q
    MulAssociative(r, p, q);
  }

  lemma MinusTwice(p: Quat)
    ensures Mul(Real(-1.0), Mul(Real(-1.0), p)) == p
  {
    ScaleIsMul(p, -1.0);
    ScaleIsMul(Scale(p, -1.0), -1.0);
  }

  /** The matrix with its axes renamed cyclically. */
  function TurnMat(m: Mat3): (n: Mat3) {
    Mat3(TurnVec(m.c1), TurnVec(m.c2), TurnVec(m.c0))
  }

  function Shift(a: nat): (b: nat)
    requires a < 4
    ensures b < 4
  {
    if a == 3 then 3 else (a + 1) % 3
  }

  lemma TurnOuter(m: Mat3)
    ensures forall a: nat, b: nat | a < 4 && b < 4 :: Outer(TurnMat(m), a, b) == Outer(m, Shift(a), Shift(b))
  {
  }

  lemma TurnIsRotation(m: Mat3)
    requires IsRotation(m)
    ensures IsRotation(TurnMat(m))
  {
    Frame(m.c0, m.c1, m.c2);
    var t := TurnMat(m);
    assert Inner(t.c0, t.c0) == Inner(m.c1, m.c1);
    assert Inner(t.c1, t.c1) == Inner(m.c2, m.c2);
    assert Inner(t.c0, t.c1) == Inner(m.c1, m.c2);
    assert Cross(t.c0, t.c1) == TurnVec(Cross(m.c1, m.c2));
  }

  // ----- the table of a rotation matrix has rank one

  lemma MinorTimes(u: real, p: real, q: real, r: real, s: real)
    ensures Times(u, Times(p, q) - Times(r, s)) == Times3(u, p, q) - Times3(u, r, s)
  {
  }

  lemma Times3Order(p: real, q: real, r: real)
    ensures Times3(p, q, r) == Times3(p, r, q) == Times3(q, p, r)
         == Times3(q, r, p) == Times3(r, p, q) == Times3(r, q, p)
  {
  }

  /** The first row is a unit vector, orthogonal to the second. */
  lemma FirstRow(m: Mat3)
    requires IsRotation(m)
    ensures Times(m.c0.x, m.c0.x) + Times(m.c1.x, m.c1.x) + Times(m.c2.x, m.c2.x) == 1.0
    ensures Times(m.c0.x, m.c0.y) + Times(m.c1.x, m.c1.y) + Times(m.c2.x, m.c2.y) == 0.0
  {
    Frame(m.c0, m.c1, m.c2);
    var Vec3(a, b, c) := m.c0;
    var Vec3(d, e, f) := m.c1;
    var Vec3(g, h, i) := m.c2;
    // every entry of the first column against its cofactor, and of the first row against its own
    MinorTimes(a, e, i, f, h);
    MinorTimes(b, f, g, d, i);
    MinorTimes(c, d, h, e, g);
    MinorTimes(d, h, c, i, b);
    MinorTimes(g, b, f, c, e);
    Times3Order(a, e, i);
    Times3Order(a, f, h);
    Times3Order(b, f, g);
    Times3Order(b, d, i);
    Times3Order(c, d, h);
    Times3Order(c, e, g);
    // the first row against the cofactors of the second
    MinorTimes(a, f, g, d, i);
    MinorTimes(d, i, a, g, c);
    MinorTimes(g, c, d, a, f);
    Times3Order(a, f, g);
    Times3Order(a, d, i);
    Times3Order(d, g, c);
  }

  lemma Foil(p: real, q: real, r: real, s: real)
    ensures Times(p - q, r - s) == Times(p, r) - Times(p, s) - Times(q, r) + Times(q, s)
    ensures Times(p - q, r + s) == Times(p, r) + Times(p, s) - Times(q, r) - Times(q, s)
    ensures Times(p + q, r + s) == Times(p, r) + Times(p, s) + Times(q, r) + Times(q, s)
  {
  }

  lemma TraceFoil(a: real, e: real, i: real, p: real, q: real)
    ensures Times(a + e + i + 1.0, p + q)
      == Times(a, p) + Times(a, q) + Times(e, p) + Times(e, q) + Times(i, p) + Times(i, q) + p + q
  {
  }

  lemma DiagonalFoil(a: real, e: real, i: real, p: real, q: real)
    ensures Times(a - (e + i) + 1.0, p - q)
      == Times(a, p) - Times(a, q) - Times(e, p) + Times(e, q) - Times(i, p) + Times(i, q) + p - q
    ensures Times(a - (e + i) + 1.0, p + q)
      == Times(a, p) + Times(a, q) - Times(e, p) - Times(e, q) - Times(i, p) - Times(i, q) + p + q
  {
  }

  lemma TraceDiagonal(a: real, e: real, i: real)
    ensures Times(a + e + i + 1.0, a - (e + i) + 1.0)
         == 1.0 + 2.0 * a + Times(a, a) - Times(e, e) - Times(i, i) - 2.0 * Times(e, i)
  {
  }

  lemma DiagonalDiagonal(a: real, e: real, i: real)
    ensures Times(a - (e + i) + 1.0, e - (i + a) + 1.0)
         == 1.0 - 2.0 * i + Times(i, i) - Times(a, a) - Times(e, e) + 2.0 * Times(a, e)
  {
  }

  /** The facts about the entries of a rotation matrix, column by column `a b c`, `d e f`, `g h i`,
      that the relations below use. */
  ghost predicate Facts(a: real, b: real, c: real, d: real, e: real, f: real, g: real, h: real, i: real) {
    && Times(a, a) + Times(b, b) + Times(c, c) == 1.0
    && Times(d, d) + Times(e, e) + Times(f, f) == 1.0
    && Times(g, g) + Times(h, h) + Times(i, i) == 1.0
    && Times(a, a) + Times(d, d) + Times(g, g) == 1.0
    && Times(c, c) + Times(f, f) + Times(i, i) == 1.0
    && Times(a, d) + Times(b, e) + Times(c, f) == 0.0
    && Times(d, g) + Times(e, h) + Times(f, i) == 0.0
    && Times(g, a) + Times(h, b) + Times(i, c) == 0.0
    && Times(a, b) + Times(d, e) + Times(g, h) == 0.0
    && Times(b, c) + Times(e, f) + Times(h, i) == 0.0
    && Times(c, a) + Times(f, d) + Times(i, g) == 0.0
    && a == Times(e, i) - Times(f, h) && i == Times(a, e) - Times(b, d)
    && b == Times(f, g) - Times(d, i) && d == Times(h, c) - Times(i, b)
    && c == Times(d, h) - Times(e, g) && g == Times(b, f) - Times(c, e)
    && f == Times(g, b) - Times(h, a) && h == Times(c, d) - Times(a, f)
  }

  lemma RotationFacts(m: Mat3)
    requires IsRotation(m)
    ensures Facts(m.c0.x, m.c0.y, m.c0.z, m.c1.x, m.c1.y, m.c1.z, m.c2.x, m.c2.y, m.c2.z)
  {
    Frame(m.c0, m.c1, m.c2);
    FirstRow(m);
    TurnIsRotation(m);
    FirstRow(TurnMat(m));
    TurnIsRotation(TurnMat(m));
    FirstRow(TurnMat(TurnMat(m)));
  }

  lemma SkewSquared(a: real, b: real, c: real, d: real, e: real, f: real, g: real, h: real, i: real)
    requires Facts(a, b, c, d, e, f, g, h, i)
    ensures Times(f - h, f - h) == Times(a + e + i + 1.0, a - (e + i) + 1.0)
  {
    Foil(f, h, f, h);
    TraceDiagonal(a, e, i);
  }

  lemma SkewSkew(a: real, b: real, c: real, d: real, e: real, f: real, g: real, h: real, i: real)
    requires Facts(a, b, c, d, e, f, g, h, i)
    ensures Times(f - h, g - c) == Times(a + e + i + 1.0, b + d)
  {
    Foil(f, h, g, c);
    TraceFoil(a, e, i, b, d);
  }

  lemma SkewSymmetric(a: real, b: real, c: real, d: real, e: real, f: real, g: real, h: real, i: real)
    requires Facts(a, b, c, d, e, f, g, h, i)
    ensures Times(f - h, b + d) == Times(a - (e + i) + 1.0, g - c)
    ensures Times(f - h, c + g) == Times(a - (e + i) + 1.0, b - d)
  {
    Foil(f, h, b, d);
    DiagonalFoil(a, e, i, g, c);
    Foil(f, h, c, g);
    DiagonalFoil(a, e, i, b, d);
  }

  lemma SymmetricSymmetric(a: real, b: real, c: real, d: real, e: real, f: real, g: real, h: real, i: real)
    requires Facts(a, b, c, d, e, f, g, h, i)
    ensures Times(b + d, b + d) == Times(a - (e + i) + 1.0, e - (i + a) + 1.0)
    ensures Times(b + d, c + g) == Times(a - (e + i) + 1.0, f + h)
  {
    Foil(b, d, b, d);
    DiagonalDiagonal(a, e, i);
    Foil(b, d, c, g);
    DiagonalFoil(a, e, i, f, h);
  }

  /** The relations between entries from which all others follow by renaming axes. */
  lemma TableRelations(m: Mat3)
    requires IsRotation(m)
    ensures Times(Outer(m, 3, 0), Outer(m, 3, 0)) == Times(Outer(m, 3, 3), Outer(m, 0, 0))
    ensures Times(Outer(m, 3, 0), Outer(m, 3, 1)) == Times(Outer(m, 3, 3), Outer(m, 0, 1))
    ensures Times(Outer(m, 0, 3), Outer(m, 0, 1)) == Times(Outer(m, 0, 0), Outer(m, 3, 1))
    ensures Times(Outer(m, 0, 3), Outer(m, 0, 2)) == Times(Outer(m, 0, 0), Outer(m, 3, 2))
    ensures Times(Outer(m, 0, 1), Outer(m, 0, 1)) == Times(Outer(m, 0, 0), Outer(m, 1, 1))
    ensures Times(Outer(m, 0, 1), Outer(m, 0, 2)) == Times(Outer(m, 0, 0), Outer(m, 1, 2))
  {
    RotationFacts(m);
    var Vec3(a, b, c) := m.c0;
    var Vec3(d, e, f) := m.c1;
    var Vec3(g, h, i) := m.c2;
    SkewSquared(a, b, c, d, e, f, g, h, i);
    SkewSkew(a, b, c, d, e, f, g, h, i);
    SkewSymmetric(a, b, c, d, e, f, g, h, i);
    SymmetricSymmetric(a, b, c, d, e, f, g, h, i);
  }

  lemma OuterSymmetric(m: Mat3, a: nat, b: nat)
    requires a < 4 && b < 4
    ensures Outer(m, a, b) == Outer(m, b, a)
  {
  }

  /** The same relations with axis `i` in the lead. */
  lemma TableRelationsAt(m: Mat3, i: nat, j: nat, k: nat)
    requires IsRotation(m) && i < 3 && j == (i + 1) % 3 && k == (i + 2) % 3
    ensures Times(Outer(m, 3, i), Outer(m, 3, i)) == Times(Outer(m, 3, 3), Outer(m, i, i))
    ensures Times(Outer(m, 3, i), Outer(m, 3, j)) == Times(Outer(m, 3, 3), Outer(m, i, j))
    ensures Times(Outer(m, i, 3), Outer(m, i, j)) == Times(Outer(m, i, i), Outer(m, 3, j))
    ensures Times(Outer(m, i, 3), Outer(m, i, k)) == Times(Outer(m, i, i), Outer(m, 3, k))
    ensures Times(Outer(m, i, j), Outer(m, i, j)) == Times(Outer(m, i, i), Outer(m, j, j))
    ensures Times(Outer(m, i, j), Outer(m, i, k)) == Times(Outer(m, i, i), Outer(m, j, k))
  {
    TableRelations(m);
    TurnIsRotation(m);
    TableRelations(TurnMat(m));
    TurnOuter(m);
    TurnIsRotation(TurnMat(m));
    TableRelations(TurnMat(TurnMat(m)));
    TurnOuter(TurnMat(m));
  }

  /** The table of every rotation matrix has rank one. */
  lemma RotationTable(m: Mat3)
    requires IsRotation(m)
    ensures RankOne(m)
  {
    forall i: nat, a: nat, b: nat | i < 4 && a < 4 && b < 4
      ensures Times(Outer(m, i, a), Outer(m, i, b)) == Times(Outer(m, i, i), Outer(m, a, b))
    {
      if i < 3 {
        AxisRow(m, i, a, b);
      } else {
        TraceRow(m, a, b);
      }
    }
  }

  lemma TraceRow(m: Mat3, a: nat, b: nat)
    requires IsRotation(m) && a < 4 && b < 4
    ensures Times(Outer(m, 3, a), Outer(m, 3, b)) == Times(Outer(m, 3, 3), Outer(m, a, b))
  {
    OuterSymmetric(m, a, b);
    Commute(Outer(m, 3, a), Outer(m, 3, b));
    if a < 3 && b < 3 {
      if b == (a + 1) % 3 || a == b {
        TableRelationsAt(m, a, (a + 1) % 3, (a + 2) % 3);
      } else {
        TableRelationsAt(m, b, (b + 1) % 3, (b + 2) % 3);
      }
    }
  }

  lemma AxisRow(m: Mat3, i: nat, a: nat, b: nat)
    requires IsRotation(m) && i < 3 && a < 4 && b < 4
    ensures Times(Outer(m, i, a), Outer(m, i, b)) == Times(Outer(m, i, i), Outer(m, a, b))
  {
    var j, k := (i + 1) % 3, (i + 2) % 3;
    TableRelationsAt(m, i, j, k);
    TableRelationsAt(m, k, i, j);
    OuterSymmetric(m, a, b);
    OuterSymmetric(m, i, 3);
    OuterSymmetric(m, i, k);
    Commute(Outer(m, i, a), Outer(m, i, b));
    Commute(Outer(m, i, i), Outer(m, k, k));
    Commute(Outer(m, i, i), Outer(m, 3, 3));
  }

  /** Extraction inverts the construction on every rotation matrix: the result is a unit quaternion
      whose matrix is the one given. */
  method ExtractFromRotation(m: Mat3, sqrt: real -> real) returns (q: Quat)
    requires IsRotation(m) && IsSquareRoot(sqrt)
    ensures Dot(q, q) == 1.0 && RotationMatrix(q) == m && LeadsPositive(q, m)
    ensures forall r | Dot(r, r) == 1.0 && RotationMatrix(r) == m :: r == q || r == Negated(q)
  {
    RotationTable(m);
    q := ExtractQuat(m, sqrt);
    TableFixesMatrix(q, m);
    forall r | Dot(r, r) == 1.0 && RotationMatrix(r) == m
      ensures r == q || r == Negated(q)
    {
      UnitTable(r);
      TableFixesQuaternion(q, r, m);
    }
  }

  /** Rotating keeps inner products and orientation. */
  lemma RotatePreservesProducts(q: Quat, u: Vec3, v: Vec3)
    requires q != ZERO
    ensures Inner(Rotate(q, u), Rotate(q, v)) == Inner(u, v)
    ensures Cross(Rotate(q, u), Rotate(q, v)) == Rotate(q, Cross(u, v))
  {
    var i, p, r := Inverse(q), Pure(u), Pure(v);
    InverseIsInverse(q);
    RotateIsPure(q, u);
    RotateIsPure(q, v);
    // (q u i) (q v i) == q (u v) i
    MulAssociative(Mul(q, p), i, Mul(Mul(q, r), i));
    MulAssociative(i, Mul(q, r), i);
    MulAssociative(i, q, r);
    MulOne(r);
    MulAssociative(q, p, Mul(r, i));
    MulAssociative(p, r, i);
    MulAssociative(q, Mul(p, r), i);
    PureMul(u, v);
    PureMul(Rotate(q, u), Rotate(q, v));
    var c, s := Pure(Cross(u, v)), Real(-Inner(u, v));
    assert Mul(p, r) == Add(s, c);
    MulAdd(s, c, q);
    MulAdd(Mul(q, s), Mul(q, c), i);
    RotateIsPure(q, Cross(u, v));
    ScaleIsMul(q, -Inner(u, v));
    MulAssociative(s, q, i);
    ScaleIsMul(ONE, -Inner(u, v));
    MulOne(s);
  }

  lemma AxesFrame()
    ensures Inner(E0, E0) == Inner(E1, E1) == 1.0 && Inner(E0, E1) == 0.0 && Cross(E0, E1) == E2
  {
    TimesZero(0.0);
    TimesZero(1.0);
  }

  /** The matrix of every non-zero quaternion is a rotation matrix. */
  lemma MatrixIsRotation(q: Quat)
    requires q != ZERO
    ensures IsRotation(RotationMatrix(q))
  {
    AxesFrame();
    Columns(q);
    RotatePreservesProducts(q, E0, E0);
    RotatePreservesProducts(q, E1, E1);
    RotatePreservesProducts(q, E0, E1);
    FrameIsRotation(RotationMatrix(q), Rotate(q, E0), Rotate(q, E1), Rotate(q, E2));
  }

  lemma FrameIsRotation(m: Mat3, u: Vec3, v: Vec3, w: Vec3)
    requires m == Mat3(u, v, w)
    requires Inner(u, u) == Inner(v, v) == 1.0 && Inner(u, v) == 0.0 && Cross(u, v) == w
    ensures IsRotation(m)
  {
  }
}
