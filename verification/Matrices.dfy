/** Matrices over exact reals, stored as the math headers store them: `m[c]` is column `c` and
    `m[c][r]` is its entry in row `r`. */
module Matrices {

  type Vector = seq<real>
  type Matrix = seq<Vector>

  predicate IsSized(m: Matrix, columns: nat, rows: nat) {
    |m| == columns && forall c | 0 <= c < columns :: |m[c]| == rows
  }

  predicate IsSquare(m: Matrix, n: nat) {
    IsSized(m, n, n)
  }

  function Row(m: Matrix, r: nat): (v: Vector)
    requires forall c | 0 <= c < |m| :: r < |m[c]|
    ensures |v| == |m|
  {
    seq(|m|, c requires 0 <= c < |m| => m[c][r])
  }

  function Zero(n: nat): (z: Vector) {
    seq(n, _ => 0.0)
  }

  /** The `i`-th basis vector. */
  function Basis(n: nat, i: int): (e: Vector) {
    seq(n, k => if k == i then 1.0 else 0.0)
  }

  function Identity(n: nat): (m: Matrix)
    ensures IsSquare(m, n)
  {
    seq(n, c => Basis(n, c))
  }

  /** `u + d * w`, component by component. */
  function AddScaled(u: Vector, d: real, w: Vector): (r: Vector)
    requires |u| == |w|
    ensures |r| == |u|
  {
    seq(|u|, k requires 0 <= k < |u| => u[k] + d * w[k])
  }

  function Over(u: Vector, d: real): (r: Vector)
    requires d != 0.0
    ensures |r| == |u|
  {
    seq(|u|, k requires 0 <= k < |u| => u[k] / d)
  }

  /** The sum of `u[k] * w[k]` over the first `n` components. */
  function DotTo(u: Vector, w: Vector, n: nat): (d: real)
    requires n <= |u| && n <= |w|
  {
    if n == 0 then 0.0 else DotTo(u, w, n - 1) + u[n - 1] * w[n - 1]
  }

  function Dot(u: Vector, w: Vector): (d: real)
    requires |u| == |w|
  {
    DotTo(u, w, |u|)
  }

  /** The first `m` columns of `a`, each weighted by the matching component of `x`. */
  function CombineTo(a: Matrix, x: Vector, m: nat): (r: Vector)
    requires IsSquare(a, |x|) && m <= |x|
    ensures |r| == |x|
  {
    if m == 0 then Zero(|x|) else AddScaled(CombineTo(a, x, m - 1), x[m - 1], a[m - 1])
  }

  /** Matrix times column vector. */
  function Apply(a: Matrix, x: Vector): (r: Vector)
    requires IsSquare(a, |x|)
    ensures |r| == |x|
  {
    CombineTo(a, x, |x|)
  }

  /** Row vector times matrix. */
  function RowApply(v: Vector, a: Matrix): (r: Vector)
    requires IsSquare(a, |v|)
    ensures |r| == |v|
  {
    seq(|v|, c requires 0 <= c < |v| => Dot(v, a[c]))
  }

  function Product(a: Matrix, b: Matrix): (m: Matrix)
    requires IsSquare(a, |b|) && IsSquare(b, |b|)
    ensures IsSquare(m, |b|)
  {
    seq(|b|, c requires 0 <= c < |b| => Apply(a, b[c]))
  }

  /** `x` undoes `a` on both sides. */
  ghost predicate IsInverse(a: Matrix, x: Matrix) {
    && IsSquare(a, |a|) && IsSquare(x, |a|)
    && Product(a, x) == Identity(|a|)
    && Product(x, a) == Identity(|a|)
  }

  ghost predicate HasInverse(a: Matrix) {
    exists x :: IsInverse(a, x)
  }

  /** The row vector `v` is sent to zero by `a`. */
  ghost predicate Annihilates(v: Vector, a: Matrix) {
    IsSquare(a, |v|) && forall c | 0 <= c < |v| :: Dot(v, a[c]) == 0.0
  }

  /** Only the zero row vector is sent to zero. */
  ghost predicate TrivialNull(a: Matrix) {
    forall v {:trigger Annihilates(v, a)} | Annihilates(v, a) && |v| == |a| :: v == Zero(|a|)
  }

  // ----- the matrix products as the headers compute them

  /** Matrix by column vector: the result starts at zero and accumulates one weighted column at a time.
      Each entry is a row of the matrix times the vector. */
  method MultiplyVector(lhs: Matrix, rhs: Vector, rows: nat) returns (result: Vector)
    requires IsSized(lhs, |rhs|, rows)
    ensures |result| == rows && forall r | 0 <= r < rows :: result[r] == Dot(Row(lhs, r), rhs)
    ensures rows == |rhs| ==> result == Apply(lhs, rhs)
  {
    result := Zero(rows);
    for col := 0 to |rhs|
      invariant |result| == rows
      invariant forall r | 0 <= r < rows :: result[r] == DotTo(Row(lhs, r), rhs, col)
    {
      result := AddScaled(result, rhs[col], lhs[col]);
    }
    if rows == |rhs| {
      ApplyIsByRows(lhs, rhs, result);
    }
  }

  /** The product of matrices whose inner dimensions agree, one column of `rhs` at a time. Each entry is a
      row of the one times a column of the other. */
  method Multiply(lhs: Matrix, rhs: Matrix, depth: nat, rows: nat) returns (res: Matrix)
    requires IsSized(lhs, depth, rows) && IsSized(rhs, |rhs|, depth)
    ensures IsSized(res, |rhs|, rows)
    ensures forall c, r | 0 <= c < |rhs| && 0 <= r < rows :: res[c][r] == Dot(Row(lhs, r), rhs[c])
    ensures rows == depth == |rhs| ==> res == Product(lhs, rhs)
  {
    res := [];
    for col := 0 to |rhs|
      invariant |res| == col && forall c | 0 <= c < col :: |res[c]| == rows
      invariant forall c, r | 0 <= c < col && 0 <= r < rows :: res[c][r] == Dot(Row(lhs, r), rhs[c])
      invariant rows == depth == |rhs| ==> forall c | 0 <= c < col :: res[c] == Apply(lhs, rhs[c])
    {
      var column := MultiplyVector(lhs, rhs[col], rows);
      res := res + [column];
    }
  }

  // ----- linearity

  lemma DivideFirst(x: real, y: real, d: real)
    requires d != 0.0
    ensures x / d * y == x * y / d && y * (x / d) == y * x / d
  {
  }

  lemma {:induction false} DotAddScaled(v: Vector, u: Vector, d: real, w: Vector, n: nat)
    requires |u| == |w| && n <= |u| && n <= |v|
    ensures DotTo(v, AddScaled(u, d, w), n) == DotTo(v, u, n) + d * DotTo(v, w, n)
  {
    if n > 0 {
      DotAddScaled(v, u, d, w, n - 1);
      var a, b, c := v[n - 1], u[n - 1], w[n - 1];
      assert a * (b + d * c) == a * b + d * (a * c);
    }
  }

  lemma {:induction false} DotOver(v: Vector, u: Vector, d: real, n: nat)
    requires d != 0.0 && n <= |u| && n <= |v|
    ensures DotTo(v, Over(u, d), n) == DotTo(v, u, n) / d
  {
    if n > 0 {
      DotOver(v, u, d, n - 1);
      DivideFirst(u[n - 1], v[n - 1], d);
    }
  }

  lemma {:induction false} DotBasis(v: Vector, i: nat, n: nat)
    requires n <= |v| && i < |v|
    ensures DotTo(v, Basis(|v|, i), n) == if i < n then v[i] else 0.0
  {
    if n > 0 {
      DotBasis(v, i, n - 1);
    }
  }

  lemma {:induction false} BasisDot(v: Vector, i: nat, n: nat)
    requires n <= |v| && i < |v|
    ensures DotTo(Basis(|v|, i), v, n) == if i < n then v[i] else 0.0
  {
    if n > 0 {
      BasisDot(v, i, n - 1);
    }
  }

  lemma OneMoreTerm(u: real, v: real, d: real, p: real, q: real, s: real)
    ensures (u + d * v) + (p + d * q) * s == (u + p * s) + d * (v + q * s)
  {
    assert (p + d * q) * s == p * s + d * (q * s);
  }

  lemma OneMoreColumn(u: Vector, v: Vector, d: real, p: real, q: real, sum: real, w: Vector)
    requires |u| == |v| == |w| && sum == p + d * q
    ensures AddScaled(AddScaled(u, d, v), sum, w) == AddScaled(AddScaled(u, p, w), d, AddScaled(v, q, w))
  {
    forall k | 0 <= k < |u|
      ensures AddScaled(AddScaled(u, d, v), sum, w)[k] == AddScaled(AddScaled(u, p, w), d, AddScaled(v, q, w))[k]
    {
      OneMoreTerm(u[k], v[k], d, p, q, w[k]);
    }
  }

  lemma {:induction false} CombineAddScaled(a: Matrix, x: Vector, d: real, y: Vector, m: nat)
    requires |x| == |y| && IsSquare(a, |x|) && m <= |x|
    ensures CombineTo(a, AddScaled(x, d, y), m) == AddScaled(CombineTo(a, x, m), d, CombineTo(a, y, m))
  {
    if m == 0 {
      assert AddScaled(Zero(|x|), d, Zero(|x|)) == Zero(|x|);
    } else {
      var k := m - 1;
      var u, v, sum := CombineTo(a, x, k), CombineTo(a, y, k), AddScaled(x, d, y);
      assert sum[k] == x[k] + d * y[k];
      hide AddScaled;
      CombineAddScaled(a, x, d, y, k);
      OneMoreColumn(u, v, d, x[k], y[k], sum[k], a[k]);
      assert CombineTo(a, sum, m) == AddScaled(AddScaled(u, d, v), sum[k], a[k]);
    }
  }

  lemma QuotientTerm(u: real, x: real, w: real, d: real)
    requires d != 0.0
    ensures u / d + x * (w / d) == u / d + x / d * w == (u + x * w) / d
  {
    DivideFirst(w, x, d);
    DivideFirst(x, w, d);
  }

  lemma OverWeight(u: Vector, x: real, over: real, w: Vector, d: real)
    requires d != 0.0 && |u| == |w| && over == x / d
    ensures AddScaled(Over(u, d), over, w) == Over(AddScaled(u, x, w), d)
  {
    forall k | 0 <= k < |u|
      ensures AddScaled(Over(u, d), over, w)[k] == Over(AddScaled(u, x, w), d)[k]
    {
      QuotientTerm(u[k], x, w[k], d);
    }
  }

  lemma {:induction false} CombineOver(a: Matrix, x: Vector, d: real, m: nat)
    requires d != 0.0 && IsSquare(a, |x|) && m <= |x|
    ensures CombineTo(a, Over(x, d), m) == Over(CombineTo(a, x, m), d)
  {
    if m == 0 {
      assert Over(Zero(|x|), d) == Zero(|x|);
    } else {
      var over := Over(x, d);
      assert over[m - 1] == x[m - 1] / d;
      hide AddScaled, Over;
      CombineOver(a, x, d, m - 1);
      OverWeight(CombineTo(a, x, m - 1), x[m - 1], over[m - 1], a[m - 1], d);
    }
  }

  lemma {:induction false} CombineBasis(a: Matrix, i: nat, n: nat, m: nat)
    requires IsSquare(a, n) && i < n && m <= n
    ensures CombineTo(a, Basis(n, i), m) == if i < m then a[i] else Zero(n)
  {
    if m > 0 {
      CombineBasis(a, i, n, m - 1);
    }
  }

  /** Each entry of a matrix-by-vector product is a row of the matrix times the vector. */
  lemma {:induction false} ApplyEntry(a: Matrix, x: Vector, r: nat, m: nat)
    requires IsSquare(a, |x|) && r < |x| && m <= |x|
    ensures CombineTo(a, x, m)[r] == DotTo(Row(a, r), x, m)
  {
    if m > 0 {
      ApplyEntry(a, x, r, m - 1);
    }
  }

  /** A vector whose entries are the rows of a square matrix times `x` is the matrix applied to `x`. */
  lemma ApplyIsByRows(a: Matrix, x: Vector, u: Vector)
    requires IsSquare(a, |x|) && |u| == |x| && forall r | 0 <= r < |x| :: u[r] == Dot(Row(a, r), x)
    ensures u == Apply(a, x)
  {
    forall r | 0 <= r < |x|
      ensures u[r] == Apply(a, x)[r]
    {
      ApplyEntry(a, x, r, |x|);
    }
  }

  // ----- associativity and uniqueness

  /** `v . (a * x) == (v * a) . x`, one column of `a` at a time. */
  lemma {:induction false} DotCombine(v: Vector, a: Matrix, x: Vector, m: nat)
    requires |v| == |x| && IsSquare(a, |x|) && m <= |x|
    ensures Dot(v, CombineTo(a, x, m)) == DotTo(RowApply(v, a), x, m)
  {
    if m == 0 {
      DotZero(v, |v|);
    } else {
      hide AddScaled;
      DotCombine(v, a, x, m - 1);
      DotAddScaled(v, CombineTo(a, x, m - 1), x[m - 1], a[m - 1], |v|);
      assert RowApply(v, a)[m - 1] == Dot(v, a[m - 1]);
    }
  }

  lemma {:induction false} DotZero(v: Vector, n: nat)
    requires n <= |v|
    ensures DotTo(v, Zero(|v|), n) == 0.0
    ensures DotTo(Zero(|v|), v, n) == 0.0
  {
    if n > 0 {
      DotZero(v, n - 1);
    }
  }

  lemma RowApplyProduct(v: Vector, a: Matrix, b: Matrix)
    requires IsSquare(a, |v|) && IsSquare(b, |v|)
    ensures RowApply(RowApply(v, a), b) == RowApply(v, Product(a, b))
  {
    forall c | 0 <= c < |v|
      ensures RowApply(RowApply(v, a), b)[c] == RowApply(v, Product(a, b))[c]
    {
      DotCombine(v, a, b[c], |v|);
    }
  }

  lemma RowApplyIdentity(v: Vector)
    ensures RowApply(v, Identity(|v|)) == v
  {
    forall c | 0 <= c < |v|
      ensures RowApply(v, Identity(|v|))[c] == v[c]
    {
      DotBasis(v, c, |v|);
    }
  }

  /** Matrices that act alike on every row vector are equal. */
  lemma SameActionSameMatrix(a: Matrix, b: Matrix, n: nat)
    requires IsSquare(a, n) && IsSquare(b, n)
    requires forall v: Vector | |v| == n :: RowApply(v, a) == RowApply(v, b)
    ensures a == b
  {
    forall c, r | 0 <= c < n && 0 <= r < n
      ensures a[c][r] == b[c][r]
    {
      var e := Basis(n, r);
      assert RowApply(e, a)[c] == RowApply(e, b)[c];
      BasisDot(a[c], r, n);
      BasisDot(b[c], r, n);
    }
    forall c | 0 <= c < n
      ensures a[c] == b[c]
    {
    }
  }

  /** A left inverse and a right inverse of the same matrix are equal. */
  lemma LeftInverseIsRightInverse(a: Matrix, left: Matrix, right: Matrix, n: nat)
    requires IsSquare(a, n) && IsSquare(left, n) && IsSquare(right, n)
    requires Product(left, a) == Identity(n) && Product(a, right) == Identity(n)
    ensures left == right
  {
    forall v: Vector | |v| == n
      ensures RowApply(v, left) == RowApply(v, right)
    {
      var u := RowApply(v, left);
      RowApplyProduct(v, left, a);
      RowApplyIdentity(v);
      assert RowApply(u, a) == v;
      RowApplyProduct(u, a, right);
      RowApplyIdentity(u);
    }
    SameActionSameMatrix(left, right, n);
  }

  /** The inverse of a matrix, if it has one, is unique. */
  lemma InverseIsUnique(a: Matrix, x: Matrix, y: Matrix)
    requires IsInverse(a, x) && IsInverse(a, y)
    ensures x == y
  {
    LeftInverseIsRightInverse(a, x, y, |a|);
  }

  /** A right inverse is enough to make the null space of a matrix trivial. */
  lemma RightInverseMeansTrivialNull(a: Matrix, right: Matrix, n: nat)
    requires IsSquare(a, n) && IsSquare(right, n) && Product(a, right) == Identity(n)
    ensures TrivialNull(a)
  {
    forall v | Annihilates(v, a) && |v| == n
      ensures v == Zero(n)
    {
      RowApplyProduct(v, a, right);
      RowApplyIdentity(v);
      assert RowApply(v, a) == Zero(n);
      forall c | 0 <= c < n
        ensures v[c] == Zero(n)[c]
      {
        DotZero(right[c], n);
        assert v[c] == RowApply(Zero(n), right)[c];
      }
    }
  }

  lemma InvertibleMeansTrivialNull(a: Matrix)
    requires HasInverse(a)
    ensures IsSquare(a, |a|) && TrivialNull(a)
  {
    var x :| IsInverse(a, x);
    RightInverseMeansTrivialNull(a, x, |a|);
  }

  lemma ProductTrivialNull(a: Matrix, b: Matrix)
    requires IsSquare(a, |a|) && IsSquare(b, |a|) && TrivialNull(a) && TrivialNull(b)
    ensures TrivialNull(Product(a, b))
  {
    forall v | Annihilates(v, Product(a, b)) && |v| == |a|
      ensures v == Zero(|a|)
    {
      RowApplyProduct(v, a, b);
      forall c | 0 <= c < |a|
        ensures Dot(RowApply(v, a), b[c]) == 0.0
      {
        assert RowApply(v, Product(a, b))[c] == 0.0;
      }
      assert Annihilates(RowApply(v, a), b);
      forall c | 0 <= c < |a|
        ensures Dot(v, a[c]) == 0.0
      {
        assert RowApply(v, a)[c] == 0.0;
      }
      assert Annihilates(v, a);
    }
  }

  /** A right inverse whose own null space is trivial is an inverse on both sides. */
  lemma RightInverseIsTwoSided(a: Matrix, x: Matrix, n: nat)
    requires IsSquare(a, n) && IsSquare(x, n)
    requires Product(a, x) == Identity(n) && TrivialNull(x)
    ensures IsInverse(a, x)
  {
    forall v: Vector | |v| == n
      ensures RowApply(v, Product(x, a)) == RowApply(v, Identity(n))
    {
      RowApplyIdentity(v);
      var w := RowApply(v, Product(x, a));
      var u := AddScaled(w, -1.0, v);
      RowApplyProduct(v, x, a);
      var vx := RowApply(v, x);
      RowApplyProduct(vx, a, x);
      RowApplyIdentity(vx);
      assert RowApply(w, x) == vx;
      forall c | 0 <= c < n
        ensures Dot(u, x[c]) == 0.0
      {
        DotSymmetric(u, x[c], n);
        DotSymmetric(w, x[c], n);
        DotSymmetric(v, x[c], n);
        DotAddScaled(x[c], w, -1.0, v, n);
        assert RowApply(w, x)[c] == Dot(w, x[c]);
        assert vx[c] == Dot(v, x[c]);
      }
      assert Annihilates(u, x);
      assert u == Zero(n);
      forall k | 0 <= k < n
        ensures w[k] == v[k]
      {
        assert u[k] == w[k] + -1.0 * v[k];
      }
    }
    SameActionSameMatrix(Product(x, a), Identity(n), n);
  }

  lemma {:induction false} DotSymmetric(u: Vector, w: Vector, n: nat)
    requires n <= |u| && n <= |w|
    ensures DotTo(u, w, n) == DotTo(w, u, n)
  {
    if n > 0 {
      DotSymmetric(u, w, n - 1);
    }
  }
}
