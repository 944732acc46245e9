/** The matrix inversion code: Gauss-Jordan elimination with partial pivoting, done in place
    on two matrices, the closed forms for sizes 2 and 3, and the choice between them. */
module MatrixInverse {
  import opened Matrices

  // ----- the elimination steps as functions of a whole matrix

  function Swapped(m: Matrix, i: nat, j: nat): (r: Matrix)
    requires i < |m| && j < |m|
    ensures IsSquare(m, |m|) ==> IsSquare(r, |m|)
  {
    m[i := m[j]][j := m[i]]
  }

  function Divided(m: Matrix, i: nat, d: real): (r: Matrix)
    requires i < |m| && d != 0.0
    ensures IsSquare(m, |m|) ==> IsSquare(r, |m|)
  {
    m[i := Over(m[i], d)]
  }

  /** Among the first `upto` columns, all but `i` have lost their multiple of column `i`. */
  function Reduced(m: Matrix, i: nat, factors: Vector, upto: nat): (r: Matrix)
    requires IsSquare(m, |factors|) && i < |m| && upto <= |m|
    ensures IsSquare(r, |m|)
  {
    seq(|m|, c requires 0 <= c < |m| =>
      if c < upto && c != i then AddScaled(m[c], -factors[c], m[i]) else m[c])
  }

  /** Column `j` alone has lost `d` times column `i`. */
  function ReducedOne(m: Matrix, i: nat, j: nat, d: real): (r: Matrix)
    requires IsSquare(m, |m|) && i < |m| && j < |m|
    ensures IsSquare(r, |m|)
  {
    m[j := AddScaled(m[j], -d, m[i])]
  }

  /** Entry `i` of every column. */
  function Entries(m: Matrix, i: nat): (r: Vector)
    requires IsSquare(m, |m|) && i < |m|
  {
    seq(|m|, c requires 0 <= c < |m| => m[c][i])
  }

  // ----- the invariant of the elimination

  /** The first `i` entries of every column are those of the identity. */
  ghost predicate UnitUpTo(m: Matrix, i: nat)
    requires IsSquare(m, |m|) && i <= |m|
  {
    forall c, r | 0 <= c < |m| && 0 <= r < i :: m[c][r] == if c == r then 1.0 else 0.0
  }

  ghost predicate Stage(src: Matrix, tmp: Matrix, inverted: Matrix, i: nat) {
    && IsSquare(src, |src|) && IsSquare(tmp, |src|) && IsSquare(inverted, |src|)
    && tmp == Product(src, inverted)
    && TrivialNull(inverted)
    && i <= |src| && UnitUpTo(tmp, i)
  }

  lemma StageStart(src: Matrix)
    requires IsSquare(src, |src|)
    ensures Stage(src, src, Identity(|src|), 0)
  {
    var n := |src|;
    forall c | 0 <= c < n
      ensures Product(src, Identity(n))[c] == src[c]
    {
      CombineBasis(src, c, n, n);
    }
    IdentityTrivialNull(n);
  }

  lemma IdentityTrivialNull(n: nat)
    ensures TrivialNull(Identity(n))
  {
    forall v | Annihilates(v, Identity(n)) && |v| == n
      ensures v == Zero(n)
    {
      forall k | 0 <= k < n
        ensures v[k] == 0.0
      {
        DotBasis(v, k, n);
        assert Dot(v, Identity(n)[k]) == 0.0;
      }
    }
  }

  /** The column that witnesses a singular matrix when no pivot is left. */
  function NullWitness(tmp: Matrix, i: nat): (v: Vector)
    requires IsSquare(tmp, |tmp|) && i < |tmp|
  {
    seq(|tmp|, k requires 0 <= k < |tmp| => if k < i then -tmp[k][i] else if k == i then 1.0 else 0.0)
  }

  lemma {:induction false} NullWitnessDot(tmp: Matrix, i: nat, c: nat, m: nat)
    requires IsSquare(tmp, |tmp|) && i < |tmp| && UnitUpTo(tmp, i) && c < |tmp| && m <= |tmp|
    ensures DotTo(NullWitness(tmp, i), tmp[c], m) ==
      (if c < i && c < m then -tmp[c][i] else 0.0) + (if i < m then tmp[c][i] else 0.0)
  {
    if m > 0 {
      NullWitnessDot(tmp, i, c, m - 1);
    }
  }

  lemma NullWitnessAnnihilates(tmp: Matrix, i: nat)
    requires IsSquare(tmp, |tmp|) && i < |tmp| && UnitUpTo(tmp, i)
    requires forall c | i <= c < |tmp| :: tmp[c][i] == 0.0
    ensures Annihilates(NullWitness(tmp, i), tmp)
    ensures NullWitness(tmp, i) != Zero(|tmp|)
  {
    forall c | 0 <= c < |tmp|
      ensures Dot(NullWitness(tmp, i), tmp[c]) == 0.0
    {
      NullWitnessDot(tmp, i, c, |tmp|);
    }
    assert NullWitness(tmp, i)[i] == 1.0;
  }

  /** As long as the null space is trivial, row `i` has a non-zero entry from column `i` on. */
  lemma PivotExists(tmp: Matrix, i: nat)
    requires IsSquare(tmp, |tmp|) && i < |tmp| && UnitUpTo(tmp, i) && TrivialNull(tmp)
    ensures exists c :: i <= c < |tmp| && tmp[c][i] != 0.0
  {
    if forall c | i <= c < |tmp| :: tmp[c][i] == 0.0 {
      NullWitnessAnnihilates(tmp, i);
      assert false;
    }
  }

  // ----- each step keeps the null spaces trivial and the product relation

  lemma SwappedAnnihilates(v: Vector, m: Matrix, i: nat, j: nat)
    requires IsSquare(m, |v|) && i < |m| && j < |m| && Annihilates(v, Swapped(m, i, j))
    ensures Annihilates(v, m)
  {
    var s := Swapped(m, i, j);
    forall c | 0 <= c < |m|
      ensures Dot(v, m[c]) == 0.0
    {
      assert m[c] == s[if c == i then j else if c == j then i else c];
    }
  }

  lemma DividedAnnihilates(v: Vector, m: Matrix, i: nat, d: real)
    requires IsSquare(m, |v|) && i < |m| && d != 0.0 && Annihilates(v, Divided(m, i, d))
    ensures Annihilates(v, m)
  {
    var s := Divided(m, i, d);
    forall c | 0 <= c < |m|
      ensures Dot(v, m[c]) == 0.0
    {
      assert Dot(v, s[c]) == 0.0;
      if c == i {
        DotOver(v, m[i], d, |m|);
      }
    }
  }

  lemma ReducedAnnihilates(v: Vector, m: Matrix, i: nat, factors: Vector)
    requires IsSquare(m, |factors|) && |v| == |m| && i < |m|
    requires Annihilates(v, Reduced(m, i, factors, |m|))
    ensures Annihilates(v, m)
  {
    var s := Reduced(m, i, factors, |m|);
    assert s[i] == m[i] && Dot(v, s[i]) == 0.0;
    forall c | 0 <= c < |m|
      ensures Dot(v, m[c]) == 0.0
    {
      assert Dot(v, s[c]) == 0.0;
      if c != i {
        DotAddScaled(v, m[c], -factors[c], m[i], |m|);
      }
    }
  }

  lemma SwappedTrivialNull(m: Matrix, i: nat, j: nat)
    requires IsSquare(m, |m|) && i < |m| && j < |m| && TrivialNull(m)
    ensures TrivialNull(Swapped(m, i, j))
  {
    forall v | Annihilates(v, Swapped(m, i, j)) && |v| == |m|
      ensures v == Zero(|m|)
    {
      SwappedAnnihilates(v, m, i, j);
    }
  }

  lemma DividedTrivialNull(m: Matrix, i: nat, d: real)
    requires IsSquare(m, |m|) && i < |m| && d != 0.0 && TrivialNull(m)
    ensures TrivialNull(Divided(m, i, d))
  {
    forall v | Annihilates(v, Divided(m, i, d)) && |v| == |m|
      ensures v == Zero(|m|)
    {
      DividedAnnihilates(v, m, i, d);
    }
  }

  lemma ReducedTrivialNull(m: Matrix, i: nat, factors: Vector)
    requires IsSquare(m, |factors|) && i < |m| && TrivialNull(m)
    ensures TrivialNull(Reduced(m, i, factors, |m|))
  {
    forall v | Annihilates(v, Reduced(m, i, factors, |m|)) && |v| == |m|
      ensures v == Zero(|m|)
    {
      ReducedAnnihilates(v, m, i, factors);
    }
  }

  lemma SwappedProduct(src: Matrix, x: Matrix, i: nat, p: nat)
    requires IsSquare(src, |src|) && IsSquare(x, |src|) && i < |src| && p < |src|
    ensures Swapped(Product(src, x), i, p) == Product(src, Swapped(x, i, p))
  {
    var l, r := Swapped(Product(src, x), i, p), Product(src, Swapped(x, i, p));
    forall c | 0 <= c < |src|
      ensures l[c] == r[c]
    {
    }
  }

  lemma DividedProduct(src: Matrix, x: Matrix, i: nat, d: real)
    requires IsSquare(src, |src|) && IsSquare(x, |src|) && i < |src| && d != 0.0
    ensures Divided(Product(src, x), i, d) == Product(src, Divided(x, i, d))
  {
    CombineOver(src, x[i], d, |src|);
    var l, r := Divided(Product(src, x), i, d), Product(src, Divided(x, i, d));
    forall c | 0 <= c < |src|
      ensures l[c] == r[c]
    {
    }
  }

  lemma ReducedProduct(src: Matrix, x: Matrix, i: nat, factors: Vector)
    requires IsSquare(src, |factors|) && IsSquare(x, |factors|) && i < |factors|
    ensures Reduced(Product(src, x), i, factors, |src|) == Product(src, Reduced(x, i, factors, |src|))
  {
    var l, r := Reduced(Product(src, x), i, factors, |src|), Product(src, Reduced(x, i, factors, |src|));
    forall c | 0 <= c < |src|
      ensures l[c] == r[c]
    {
      CombineAddScaled(src, x[c], -factors[c], x[i], |src|);
    }
  }

  lemma ReducedUnit(tmp: Matrix, i: nat)
    requires IsSquare(tmp, |tmp|) && i < |tmp| && UnitUpTo(tmp, i) && tmp[i][i] == 1.0
    ensures UnitUpTo(Reduced(tmp, i, Entries(tmp, i), |tmp|), i + 1)
  {
    var t := Reduced(tmp, i, Entries(tmp, i), |tmp|);
    forall c, r | 0 <= c < |tmp| && 0 <= r < i + 1
      ensures t[c][r] == if c == r then 1.0 else 0.0
    {
      if c != i {
        assert t[c][r] == tmp[c][r] + -tmp[c][i] * tmp[i][r];
      }
    }
  }

  lemma SwappedUnit(tmp: Matrix, i: nat, p: nat)
    requires IsSquare(tmp, |tmp|) && i <= p < |tmp| && UnitUpTo(tmp, i)
    ensures UnitUpTo(Swapped(tmp, i, p), i)
  {
  }

  lemma DividedUnit(tmp: Matrix, i: nat)
    requires IsSquare(tmp, |tmp|) && i < |tmp| && UnitUpTo(tmp, i) && tmp[i][i] != 0.0
    ensures UnitUpTo(Divided(tmp, i, tmp[i][i]), i)
    ensures Divided(tmp, i, tmp[i][i])[i][i] == 1.0
  {
    var t := Divided(tmp, i, tmp[i][i]);
    forall c, r | 0 <= c < |tmp| && 0 <= r < i
      ensures t[c][r] == if c == r then 1.0 else 0.0
    {
      if c == i {
        assert t[c][r] == tmp[c][r] / tmp[i][i];
      }
    }
  }

  lemma SwappedStage(src: Matrix, tmp: Matrix, inverted: Matrix, i: nat, p: nat)
    requires Stage(src, tmp, inverted, i) && i <= p < |src|
    ensures Stage(src, Swapped(tmp, i, p), Swapped(inverted, i, p), i)
  {
    SwappedTrivialNull(inverted, i, p);
    SwappedProduct(src, inverted, i, p);
    SwappedUnit(tmp, i, p);
  }

  lemma DividedStage(src: Matrix, tmp: Matrix, inverted: Matrix, i: nat)
    requires Stage(src, tmp, inverted, i) && i < |src| && tmp[i][i] != 0.0
    ensures Stage(src, Divided(tmp, i, tmp[i][i]), Divided(inverted, i, tmp[i][i]), i)
  {
    DividedTrivialNull(inverted, i, tmp[i][i]);
    DividedProduct(src, inverted, i, tmp[i][i]);
    DividedUnit(tmp, i);
  }

  lemma ReducedStage(src: Matrix, tmp: Matrix, inverted: Matrix, i: nat)
    requires Stage(src, tmp, inverted, i) && i < |src| && tmp[i][i] == 1.0
    ensures Stage(src, Reduced(tmp, i, Entries(tmp, i), |src|), Reduced(inverted, i, Entries(tmp, i), |src|), i + 1)
  {
    ReducedTrivialNull(inverted, i, Entries(tmp, i));
    ReducedProduct(src, inverted, i, Entries(tmp, i));
    ReducedUnit(tmp, i);
  }

  lemma StageEnd(src: Matrix, tmp: Matrix, inverted: Matrix)
    requires Stage(src, tmp, inverted, |src|)
    ensures IsInverse(src, inverted)
  {
    forall c | 0 <= c < |src|
      ensures tmp[c] == Identity(|src|)[c]
    {
    }
    assert tmp == Identity(|src|);
    RightInverseIsTwoSided(src, inverted, |src|);
  }

  // ----- a whole round, and when one divides by zero

  function Abs(x: real): (d: real) {
    if x < 0.0 then -x else x
  }

  /** Column `p` is the pivot for index `i`: the first, from `i` on, whose entry `i` is largest in magnitude. */
  ghost predicate IsPivot(tmp: Matrix, i: nat, p: nat)
    requires IsSquare(tmp, |tmp|) && i < |tmp|
  {
    && i <= p < |tmp|
    && (forall c | i <= c < |tmp| :: Abs(tmp[c][i]) <= Abs(tmp[p][i]))
    && (forall c | i <= c < p :: Abs(tmp[c][i]) < Abs(tmp[p][i]))
  }

  /** What a round leaves of the first matrix. */
  function Next(tmp: Matrix, i: nat, p: nat): (r: Matrix)
    requires IsSquare(tmp, |tmp|) && i <= p < |tmp| && tmp[p][i] != 0.0
    ensures IsSquare(r, |tmp|)
  {
    var t := Divided(Swapped(tmp, i, p), i, tmp[p][i]);
    Reduced(t, i, Entries(t, i), |tmp|)
  }

  /** What it leaves of the second. */
  function NextInverted(tmp: Matrix, inverted: Matrix, i: nat, p: nat): (r: Matrix)
    requires IsSquare(tmp, |tmp|) && IsSquare(inverted, |tmp|) && i <= p < |tmp| && tmp[p][i] != 0.0
    ensures IsSquare(r, |tmp|)
  {
    var t := Divided(Swapped(tmp, i, p), i, tmp[p][i]);
    Reduced(Divided(Swapped(inverted, i, p), i, tmp[p][i]), i, Entries(t, i), |tmp|)
  }

  lemma NextStage(src: Matrix, tmp: Matrix, inverted: Matrix, i: nat, p: nat)
    requires Stage(src, tmp, inverted, i) && i <= p < |src| && tmp[p][i] != 0.0
    ensures Stage(src, Next(tmp, i, p), NextInverted(tmp, inverted, i, p), i + 1)
  {
    SwappedStage(src, tmp, inverted, i, p);
    var t, v := Swapped(tmp, i, p), Swapped(inverted, i, p);
    DividedStage(src, t, v, i);
    DividedUnit(t, i);
    hide Swapped;
    ReducedStage(src, Divided(t, i, t[i][i]), Divided(v, i, t[i][i]), i);
  }

  /** The elimination, from index `i` on, comes to a pivot that is zero. */
  ghost predicate DividesByZero(tmp: Matrix, i: nat)
    requires IsSquare(tmp, |tmp|) && i <= |tmp|
    decreases |tmp| - i
  {
    i < |tmp| && exists p: nat :: IsPivot(tmp, i, p) && (tmp[p][i] == 0.0 || DividesByZero(Next(tmp, i, p), i + 1))
  }

  lemma {:induction false} LargestExists(tmp: Matrix, i: nat, n: nat) returns (p: nat)
    requires IsSquare(tmp, |tmp|) && i < n <= |tmp|
    ensures i <= p < n
    ensures forall c | i <= c < n :: Abs(tmp[c][i]) <= Abs(tmp[p][i])
    ensures forall c | i <= c < p :: Abs(tmp[c][i]) < Abs(tmp[p][i])
    decreases n
  {
    if n == i + 1 {
      p := i;
    } else {
      p := LargestExists(tmp, i, n - 1);
      if Abs(tmp[n - 1][i]) > Abs(tmp[p][i]) {
        p := n - 1;
      }
    }
  }

  lemma OnePivot(tmp: Matrix, i: nat, p: nat, q: nat)
    requires IsSquare(tmp, |tmp|) && i < |tmp| && IsPivot(tmp, i, p) && IsPivot(tmp, i, q)
    ensures p == q
  {
    assert p < q ==> Abs(tmp[p][i]) < Abs(tmp[q][i]);
    assert q < p ==> Abs(tmp[q][i]) < Abs(tmp[p][i]);
  }

  /** A zero pivot means that the source is singular. */
  lemma ZeroPivotIsSingular(src: Matrix, tmp: Matrix, inverted: Matrix, i: nat, p: nat)
    requires Stage(src, tmp, inverted, i) && i < |src| && IsPivot(tmp, i, p) && tmp[p][i] == 0.0
    ensures !HasInverse(src)
  {
    if HasInverse(src) {
      InvertibleMeansTrivialNull(src);
      ProductTrivialNull(src, inverted);
      PivotExists(tmp, i);
      assert false;
    }
  }

  /** The elimination comes to a zero pivot exactly when the source has no inverse. */
  lemma {:induction false} DividesByZeroFrom(src: Matrix, tmp: Matrix, inverted: Matrix, i: nat)
    requires Stage(src, tmp, inverted, i)
    ensures DividesByZero(tmp, i) <==> !HasInverse(src)
    decreases |src| - i
  {
    if i == |src| {
      StageEnd(src, tmp, inverted);
    } else {
      var p := LargestExists(tmp, i, |tmp|);
      hide Stage, HasInverse;
      forall q: nat | IsPivot(tmp, i, q)
        ensures q == p
      {
        OnePivot(tmp, i, p, q);
      }
      if tmp[p][i] == 0.0 {
        ZeroPivotIsSingular(src, tmp, inverted, i, p);
      } else {
        NextStage(src, tmp, inverted, i, p);
        DividesByZeroFrom(src, Next(tmp, i, p), NextInverted(tmp, inverted, i, p), i + 1);
      }
    }
  }

  lemma DividesByZeroOnSingular(src: Matrix)
    requires IsSquare(src, |src|)
    ensures DividesByZero(src, 0) <==> !HasInverse(src)
  {
    StageStart(src);
    DividesByZeroFrom(src, src, Identity(|src|), 0);
  }

  // ----- the same steps on the arrays

  /** The matrix held by a two-dimensional array, first index the column. */
  ghost function Held(a: array2<real>): (m: Matrix)
    reads a
    ensures |m| == a.Length0 && forall c | 0 <= c < a.Length0 :: |m[c]| == a.Length1
    ensures forall c, r | 0 <= c < a.Length0 && 0 <= r < a.Length1 :: m[c][r] == a[c, r]
  {
    seq(a.Length0, c requires 0 <= c < a.Length0 reads a =>
      seq(a.Length1, r requires 0 <= r < a.Length1 reads a => a[c, r]))
  }

  ghost predicate Sized(a: array2<real>, n: nat) {
    a.Length0 == n && a.Length1 == n
  }

  /** The index, from `i` on, of the column whose entry `i` is largest in magnitude; the first if several are. */
  method FindPivot(tmp: array2<real>, i: nat) returns (swap: nat)
    requires Sized(tmp, tmp.Length0) && i < tmp.Length0
    ensures i <= swap < tmp.Length0
    ensures forall j | i <= j < tmp.Length0 :: Abs(tmp[j, i]) <= Abs(tmp[swap, i])
    ensures forall j | i <= j < swap :: Abs(tmp[j, i]) < Abs(tmp[swap, i])
  {
    swap := i;
    var t := Abs(tmp[i, i]);
    for j := i + 1 to tmp.Length0
      invariant i <= swap < j && t == Abs(tmp[swap, i])
      invariant forall k | i <= k < j :: Abs(tmp[k, i]) <= t
      invariant forall k | i <= k < swap :: Abs(tmp[k, i]) < t
    {
      var t2 := Abs(tmp[j, i]);
      if t2 > t {
        swap := j;
        t := t2;
      }
    }
  }

  method SwapColumns(a: array2<real>, i: nat, j: nat)
    requires Sized(a, a.Length0) && i < a.Length0 && j < a.Length0
    modifies a
    ensures Held(a) == Swapped(old(Held(a)), i, j)
  {
    for k := 0 to a.Length1
      invariant forall c, r | 0 <= c < a.Length0 && 0 <= r < a.Length1 ::
        a[c, r] == old(a[if r < k then if c == i then j else if c == j then i else c else c, r])
    {
      a[i, k], a[j, k] := a[j, k], a[i, k];
    }
    HeldEquals(a, Swapped(old(Held(a)), i, j));
  }

  method DivideColumns(tmp: array2<real>, inverted: array2<real>, i: nat)
    requires Sized(tmp, tmp.Length0) && Sized(inverted, tmp.Length0) && tmp != inverted
    requires i < tmp.Length0 && tmp[i, i] != 0.0
    modifies tmp, inverted
    ensures Held(tmp) == Divided(old(Held(tmp)), i, old(tmp[i, i]))
    ensures Held(inverted) == Divided(old(Held(inverted)), i, old(tmp[i, i]))
  {
    var denom := tmp[i, i];
    for k := 0 to tmp.Length0
      invariant forall c, r | 0 <= c < tmp.Length0 && 0 <= r < tmp.Length0 ::
        tmp[c, r] == old(if c == i && r < k then tmp[c, r] / denom else tmp[c, r])
      invariant forall c, r | 0 <= c < tmp.Length0 && 0 <= r < tmp.Length0 ::
        inverted[c, r] == old(if c == i && r < k then inverted[c, r] / denom else inverted[c, r])
    {
      tmp[i, k] := tmp[i, k] / denom;
      inverted[i, k] := inverted[i, k] / denom;
    }
    HeldEquals(tmp, Divided(old(Held(tmp)), i, denom));
    HeldEquals(inverted, Divided(old(Held(inverted)), i, denom));
  }

  /** What `u -= w * d` leaves in `u`. */
  function Less(u: real, w: real, d: real): (r: real) {
    u - w * d
  }

  lemma LessIsScaled(u: Vector, w: Vector, d: real)
    requires |u| == |w|
    ensures forall r | 0 <= r < |u| :: Less(u[r], w[r], d) == AddScaled(u, -d, w)[r]
  {
    forall r | 0 <= r < |u|
      ensures Less(u[r], w[r], d) == AddScaled(u, -d, w)[r]
    {
      assert u[r] - w[r] * d == u[r] + -d * w[r];
    }
  }

  /** Takes from column `j` of both arrays the multiple of column `i` that clears its entry `i`. */
  method ReduceColumn(tmp: array2<real>, inverted: array2<real>, i: nat, j: nat)
    requires Sized(tmp, tmp.Length0) && Sized(inverted, tmp.Length0) && tmp != inverted
    requires i < tmp.Length0 && j < tmp.Length0 && i != j
    modifies tmp, inverted
    ensures Held(tmp) == ReducedOne(old(Held(tmp)), i, j, old(tmp[j, i]))
    ensures Held(inverted) == ReducedOne(old(Held(inverted)), i, j, old(tmp[j, i]))
  {
    hide Less;
    var d := tmp[j, i];
    for k := 0 to tmp.Length0
      invariant forall c, r | 0 <= c < tmp.Length0 && 0 <= r < tmp.Length0 ::
        tmp[c, r] == old(if c == j && r < k then Less(tmp[c, r], tmp[i, r], d) else tmp[c, r])
      invariant forall c, r | 0 <= c < tmp.Length0 && 0 <= r < tmp.Length0 ::
        inverted[c, r] == old(if c == j && r < k then Less(inverted[c, r], inverted[i, r], d) else inverted[c, r])
    {
      tmp[j, k] := Less(tmp[j, k], tmp[i, k], d);
      inverted[j, k] := Less(inverted[j, k], inverted[i, k], d);
    }
    ghost var t, v := old(Held(tmp)), old(Held(inverted));
    LessIsScaled(t[j], t[i], d);
    LessIsScaled(v[j], v[i], d);
    HeldEquals(tmp, ReducedOne(t, i, j, d));
    HeldEquals(inverted, ReducedOne(v, i, j, d));
  }

  lemma ReducedStep(m: Matrix, i: nat, factors: Vector, j: nat)
    requires IsSquare(m, |factors|) && i < |m| && j < |m|
    ensures Reduced(m, i, factors, j)[j] == m[j]
    ensures Reduced(m, i, factors, j + 1) ==
      if j == i then Reduced(m, i, factors, j) else ReducedOne(Reduced(m, i, factors, j), i, j, factors[j])
  {
  }

  method ReduceColumns(tmp: array2<real>, inverted: array2<real>, i: nat)
    requires Sized(tmp, tmp.Length0) && Sized(inverted, tmp.Length0) && tmp != inverted && i < tmp.Length0
    modifies tmp, inverted
    ensures Held(tmp) == Reduced(old(Held(tmp)), i, Entries(old(Held(tmp)), i), tmp.Length0)
    ensures Held(inverted) == Reduced(old(Held(inverted)), i, Entries(old(Held(tmp)), i), tmp.Length0)
  {
    ghost var t, v, f := Held(tmp), Held(inverted), Entries(Held(tmp), i);
    for j := 0 to tmp.Length0
      invariant Held(tmp) == Reduced(t, i, f, j)
      invariant Held(inverted) == Reduced(v, i, f, j)
    {
      ReducedStep(t, i, f, j);
      ReducedStep(v, i, f, j);
      if j != i {
        assert tmp[j, i] == Held(tmp)[j][i] == f[j];
        ReduceColumn(tmp, inverted, i, j);
      }
    }
  }

  /** One round of the outer loop: choose a pivot for index `i`, bring it to column `i`,
      scale that column and clear entry `i` of all others. */
  method EliminateIndex(tmp: array2<real>, inverted: array2<real>, i: nat) returns (ghost swap: nat)
    requires Sized(tmp, tmp.Length0) && Sized(inverted, tmp.Length0) && tmp != inverted && i < tmp.Length0
    requires forall p: nat | IsPivot(Held(tmp), i, p) :: tmp[p, i] != 0.0
    modifies tmp, inverted
    ensures IsPivot(old(Held(tmp)), i, swap)
    ensures Held(tmp) == Next(old(Held(tmp)), i, swap)
    ensures Held(inverted) == NextInverted(old(Held(tmp)), old(Held(inverted)), i, swap)
  {
    ghost var t, v := Held(tmp), Held(inverted);
    var column := FindPivot(tmp, i);
    swap := column;
    assert IsPivot(t, i, swap);
    if column != i {
      SwapColumns(tmp, i, column);
      SwapColumns(inverted, i, column);
    } else {
      assert Swapped(t, i, i) == t && Swapped(v, i, i) == v;
    }
    assert Held(tmp) == Swapped(t, i, swap) && Held(inverted) == Swapped(v, i, swap);
    DivideColumns(tmp, inverted, i);
    ReduceColumns(tmp, inverted, i);
  }

  lemma PivotIsNonZero(src: Matrix, tmp: Matrix, inverted: Matrix, i: nat, p: nat)
    requires TrivialNull(src) && Stage(src, tmp, inverted, i) && i < |src| && IsPivot(tmp, i, p)
    ensures tmp[p][i] != 0.0
  {
    ProductTrivialNull(src, inverted);
    PivotExists(tmp, i);
  }

  lemma HeldEquals(a: array2<real>, m: Matrix)
    requires Sized(a, |m|) && IsSquare(m, |m|)
    requires forall c, r | 0 <= c < |m| && 0 <= r < |m| :: a[c, r] == m[c][r]
    ensures Held(a) == m
  {
    forall c | 0 <= c < |m|
      ensures Held(a)[c] == m[c]
    {
    }
  }

  method CopyIn(m: Matrix) returns (a: array2<real>)
    requires IsSquare(m, |m|)
    ensures fresh(a) && Sized(a, |m|) && Held(a) == m
  {
    a := new real[|m|, |m|]((c, r) requires 0 <= c < |m| && 0 <= r < |m| => m[c][r]);
    HeldEquals(a, m);
  }

  method CopyOut(a: array2<real>) returns (m: Matrix)
    ensures m == Held(a)
  {
    m := [];
    for c := 0 to a.Length0
      invariant m == Held(a)[..c]
    {
      var column := seq(a.Length1, r requires 0 <= r < a.Length1 reads a => a[c, r]);
      assert column == Held(a)[c];
      m := m + [column];
    }
  }

  /** The inverse of any invertible matrix on both sides, for every size. Each pivot divided by is
      non-zero because the null space of `src` is trivial. */
  method GaussJordanInverse(src: Matrix) returns (result: Matrix)
    requires HasInverse(src)
    ensures IsInverse(src, result)
  {
    InvertibleMeansTrivialNull(src);
    var n := |src|;
    var tmp := CopyIn(src);
    var inverted := CopyIn(Identity(n));
    StageStart(src);
    for i := 0 to n
      invariant Sized(tmp, n) && Sized(inverted, n)
      invariant Stage(src, Held(tmp), Held(inverted), i)
    {
      ghost var t, v := Held(tmp), Held(inverted);
      forall p: nat | IsPivot(t, i, p)
        ensures t[p][i] != 0.0
      {
        PivotIsNonZero(src, t, v, i, p);
      }
      ghost var swap := EliminateIndex(tmp, inverted, i);
      NextStage(src, t, v, i, swap);
    }
    StageEnd(src, Held(tmp), Held(inverted));
    result := CopyOut(inverted);
  }

  // ----- the closed forms

  /** The determinant of a 2x2 matrix, given row by row. */
  function Minor(p: real, q: real, r: real, s: real): (d: real) {
    p * s - q * r
  }

  function Sum2(p: real, q: real, u: real, v: real): (d: real) {
    p * u + q * v
  }

  function Sum3(p: real, q: real, s: real, u: real, v: real, w: real): (d: real) {
    p * u + q * v + s * w
  }

  function Determinant2(x: Matrix): (d: real)
    requires IsSquare(x, 2)
  {
    Minor(x[0][0], x[1][0], x[0][1], x[1][1])
  }

  /** The cofactor of the entry in column `m` and row `c`: the minor of the other two rows and
      columns, each taken in cyclic order. */
  function Cofactor(x: Matrix, c: nat, m: nat): (d: real)
    requires IsSquare(x, 3) && c < 3 && m < 3
  {
    var j, k, u, v := (c + 1) % 3, (c + 2) % 3, (m + 1) % 3, (m + 2) % 3;
    Minor(x[u][j], x[v][j], x[u][k], x[v][k])
  }

  /** The expansion along the first row. */
  function Determinant3(x: Matrix): (d: real)
    requires IsSquare(x, 3)
  {
    Sum3(x[0][0], x[1][0], x[2][0], Cofactor(x, 0, 0), Cofactor(x, 0, 1), Cofactor(x, 0, 2))
  }

  lemma Apply2(a: Matrix, x: Vector, r: nat)
    requires IsSquare(a, 2) && |x| == 2 && r < 2
    ensures Apply(a, x)[r] == Sum2(a[0][r], a[1][r], x[0], x[1])
  {
    assert CombineTo(a, x, 1) == AddScaled(CombineTo(a, x, 0), x[0], a[0]);
    assert Apply(a, x) == AddScaled(CombineTo(a, x, 1), x[1], a[1]);
  }

  lemma Apply3(a: Matrix, x: Vector, r: nat)
    requires IsSquare(a, 3) && |x| == 3 && r < 3
    ensures Apply(a, x)[r] == Sum3(a[0][r], a[1][r], a[2][r], x[0], x[1], x[2])
  {
    assert CombineTo(a, x, 1) == AddScaled(CombineTo(a, x, 0), x[0], a[0]);
    assert CombineTo(a, x, 2) == AddScaled(CombineTo(a, x, 1), x[1], a[1]);
    assert Apply(a, x) == AddScaled(CombineTo(a, x, 2), x[2], a[2]);
  }

  /** `adj` times `x`, and `x` times `adj`, is `det` times the identity. */
  ghost predicate IsAdjugate(x: Matrix, adj: Matrix, det: real) {
    && IsSquare(x, |x|) && IsSquare(adj, |x|)
    && (forall c, r | 0 <= c < |x| && 0 <= r < |x| :: Apply(x, adj[c])[r] == if r == c then det else 0.0)
    && (forall c, r | 0 <= c < |x| && 0 <= r < |x| :: Apply(adj, x[c])[r] == if r == c then det else 0.0)
  }

  function AllOver(m: Matrix, d: real): (r: Matrix)
    requires d != 0.0
  {
    seq(|m|, c requires 0 <= c < |m| => Over(m[c], d))
  }

  lemma OverColumn(u: Vector, x: real, w: Vector, d: real)
    requires d != 0.0 && |u| == |w|
    ensures AddScaled(Over(u, d), x, Over(w, d)) == Over(AddScaled(u, x, w), d)
  {
    forall k | 0 <= k < |u|
      ensures AddScaled(Over(u, d), x, Over(w, d))[k] == Over(AddScaled(u, x, w), d)[k]
    {
      QuotientTerm(u[k], x, w[k], d);
    }
  }

  lemma {:induction false} CombineAllOver(a: Matrix, x: Vector, d: real, m: nat)
    requires d != 0.0 && IsSquare(a, |x|) && m <= |x|
    ensures CombineTo(AllOver(a, d), x, m) == Over(CombineTo(a, x, m), d)
  {
    if m == 0 {
      assert Over(Zero(|x|), d) == Zero(|x|);
    } else {
      assert AllOver(a, d)[m - 1] == Over(a[m - 1], d);
      hide AddScaled, Over, AllOver;
      CombineAllOver(a, x, d, m - 1);
      OverColumn(CombineTo(a, x, m - 1), x[m - 1], a[m - 1], d);
    }
  }

  lemma QuotientIsBasis(u: Vector, c: nat, d: real)
    requires d != 0.0 && forall r | 0 <= r < |u| :: u[r] == if r == c then d else 0.0
    ensures Over(u, d) == Basis(|u|, c)
  {
    assert d / d == 1.0 && 0.0 / d == 0.0;
  }

  /** Dividing an adjugate by a non-zero determinant gives the inverse. */
  lemma AdjugateInverse(x: Matrix, adj: Matrix, det: real)
    requires IsAdjugate(x, adj, det) && det != 0.0
    ensures IsInverse(x, AllOver(adj, det))
  {
    var y := AllOver(adj, det);
    forall c | 0 <= c < |x|
      ensures Apply(x, y[c]) == Identity(|x|)[c]
      ensures Apply(y, x[c]) == Identity(|x|)[c]
    {
      CombineOver(x, adj[c], det, |x|);
      CombineAllOver(adj, x[c], det, |x|);
      QuotientIsBasis(Apply(x, adj[c]), c, det);
      QuotientIsBasis(Apply(adj, x[c]), c, det);
    }
  }

  function Cofactors2(x: Matrix): (m: Matrix)
    requires IsSquare(x, 2)
  {
    [[x[1][1], -x[0][1]], [-x[1][0], x[0][0]]]
  }

  /** The entries of the matrix of rows (p, q) and (r, s) times its adjugate, and of the adjugate times it. */
  lemma AdjugateTerms2(p: real, q: real, r: real, s: real)
    ensures Sum2(p, q, s, -r) == Sum2(r, s, -q, p) == Minor(p, q, r, s)
    ensures Sum2(s, -q, p, r) == Sum2(-r, p, q, s) == Minor(p, q, r, s)
    ensures Sum2(r, s, s, -r) == Sum2(p, q, -q, p) == 0.0
    ensures Sum2(-r, p, p, r) == Sum2(s, -q, q, s) == 0.0
  {
  }

  lemma Adjugate2Entry(x: Matrix, c: nat, r: nat)
    requires IsSquare(x, 2) && c < 2 && r < 2
    ensures Apply(x, Cofactors2(x)[c])[r] == if r == c then Determinant2(x) else 0.0
    ensures Apply(Cofactors2(x), x[c])[r] == if r == c then Determinant2(x) else 0.0
  {
    hide Minor, Sum2, Apply;
    AdjugateTerms2(x[0][0], x[1][0], x[0][1], x[1][1]);
    Apply2(x, Cofactors2(x)[c], r);
    Apply2(Cofactors2(x), x[c], r);
  }

  lemma Adjugate2(x: Matrix)
    requires IsSquare(x, 2)
    ensures IsAdjugate(x, Cofactors2(x), Determinant2(x))
  {
    hide Minor, Apply;
    forall c, r | 0 <= c < 2 && 0 <= r < 2
      ensures Apply(x, Cofactors2(x)[c])[r] == if r == c then Determinant2(x) else 0.0
      ensures Apply(Cofactors2(x), x[c])[r] == if r == c then Determinant2(x) else 0.0
    {
      Adjugate2Entry(x, c, r);
    }
  }

  lemma ClosedForm2(x: Matrix, y: Matrix)
    requires IsSquare(x, 2) && IsSquare(y, 2) && Determinant2(x) != 0.0
    requires y[0][0] == x[1][1] / Determinant2(x) && y[0][1] == -x[0][1] / Determinant2(x)
    requires y[1][0] == -x[1][0] / Determinant2(x) && y[1][1] == x[0][0] / Determinant2(x)
    ensures IsInverse(x, y)
  {
    hide Determinant2, IsInverse, IsAdjugate;
    var q := AllOver(Cofactors2(x), Determinant2(x));
    forall c | 0 <= c < 2
      ensures y[c] == q[c]
    {
      assert y[c][0] == q[c][0] && y[c][1] == q[c][1];
    }
    assert y == q;
    Adjugate2(x);
    AdjugateInverse(x, Cofactors2(x), Determinant2(x));
  }

  method FastInverse2(x: Matrix) returns (inverted: Matrix)
    requires IsSquare(x, 2) && Determinant2(x) != 0.0
    ensures IsInverse(x, inverted)
  {
    var a, c, b, d := x[0][0], x[0][1], x[1][0], x[1][1];
    var det := a * d - b * c;
    assert det == Determinant2(x);
    hide Determinant2, Minor, IsInverse;
    inverted := [[d / det, -c / det], [-b / det, a / det]];
    ClosedForm2(x, inverted);
  }

  function Cofactors3(x: Matrix): (m: Matrix)
    requires IsSquare(x, 3)
    ensures IsSquare(m, 3)
  {
    seq(3, c requires 0 <= c < 3 => seq(3, m requires 0 <= m < 3 => Cofactor(x, c, m)))
  }

  /** The triple product of (p, q, s), (u, v, w) and (x, y, z). */
  function Box(p: real, q: real, s: real, u: real, v: real, w: real, x: real, y: real, z: real): (d: real) {
    Sum3(p, q, s, Minor(v, w, y, z), Minor(w, u, z, x), Minor(u, v, x, y))
  }

  lemma BoxRepeats(u: real, v: real, w: real, x: real, y: real, z: real)
    ensures Box(u, v, w, u, v, w, x, y, z) == 0.0
    ensures Box(x, y, z, u, v, w, x, y, z) == 0.0
  {
  }

  lemma BoxTurns(p: real, q: real, s: real, u: real, v: real, w: real, x: real, y: real, z: real)
    ensures Box(p, q, s, u, v, w, x, y, z) == Box(u, v, w, x, y, z, p, q, s)
  {
  }

  lemma BoxTransposed(p: real, q: real, s: real, u: real, v: real, w: real, x: real, y: real, z: real)
    ensures Box(p, q, s, u, v, w, x, y, z) == Box(p, u, x, q, v, y, s, w, z)
  {
  }

  function RowBox(x: Matrix, i: nat, j: nat, k: nat): (d: real)
    requires IsSquare(x, 3) && i < 3 && j < 3 && k < 3
  {
    Box(x[0][i], x[1][i], x[2][i], x[0][j], x[1][j], x[2][j], x[0][k], x[1][k], x[2][k])
  }

  function ColumnBox(x: Matrix, i: nat, j: nat, k: nat): (d: real)
    requires IsSquare(x, 3) && i < 3 && j < 3 && k < 3
  {
    Box(x[i][0], x[i][1], x[i][2], x[j][0], x[j][1], x[j][2], x[k][0], x[k][1], x[k][2])
  }

  lemma RowBoxes(x: Matrix, c: nat, r: nat)
    requires IsSquare(x, 3) && c < 3 && r < 3
    ensures RowBox(x, r, (c + 1) % 3, (c + 2) % 3) == if r == c then RowBox(x, 0, 1, 2) else 0.0
  {
    hide Box;
    var j, k := (c + 1) % 3, (c + 2) % 3;
    BoxTurns(x[0][0], x[1][0], x[2][0], x[0][1], x[1][1], x[2][1], x[0][2], x[1][2], x[2][2]);
    BoxTurns(x[0][1], x[1][1], x[2][1], x[0][2], x[1][2], x[2][2], x[0][0], x[1][0], x[2][0]);
    BoxRepeats(x[0][j], x[1][j], x[2][j], x[0][k], x[1][k], x[2][k]);
  }

  lemma ColumnBoxes(x: Matrix, c: nat, r: nat)
    requires IsSquare(x, 3) && c < 3 && r < 3
    ensures ColumnBox(x, c, (r + 1) % 3, (r + 2) % 3) == if r == c then RowBox(x, 0, 1, 2) else 0.0
  {
    hide Box;
    var j, k := (r + 1) % 3, (r + 2) % 3;
    BoxTurns(x[0][0], x[0][1], x[0][2], x[1][0], x[1][1], x[1][2], x[2][0], x[2][1], x[2][2]);
    BoxTurns(x[1][0], x[1][1], x[1][2], x[2][0], x[2][1], x[2][2], x[0][0], x[0][1], x[0][2]);
    BoxTransposed(x[0][0], x[1][0], x[2][0], x[0][1], x[1][1], x[2][1], x[0][2], x[1][2], x[2][2]);
    BoxRepeats(x[j][0], x[j][1], x[j][2], x[k][0], x[k][1], x[k][2]);
  }

  lemma DeterminantIsBox(x: Matrix)
    requires IsSquare(x, 3)
    ensures Determinant3(x) == RowBox(x, 0, 1, 2)
  {
    hide Minor, Sum3;
  }

  /** A row times its own cofactors is the determinant, times another row's is zero. */
  lemma RowExpansion(x: Matrix, c: nat, r: nat)
    requires IsSquare(x, 3) && c < 3 && r < 3
    ensures Sum3(x[0][r], x[1][r], x[2][r], Cofactor(x, c, 0), Cofactor(x, c, 1), Cofactor(x, c, 2))
      == if r == c then Determinant3(x) else 0.0
  {
    DeterminantIsBox(x);
    hide Minor, Sum3, Determinant3;
    RowBoxes(x, c, r);
  }

  /** The same for a column. */
  lemma ColumnExpansion(x: Matrix, c: nat, r: nat)
    requires IsSquare(x, 3) && c < 3 && r < 3
    ensures Sum3(Cofactor(x, 0, r), Cofactor(x, 1, r), Cofactor(x, 2, r), x[c][0], x[c][1], x[c][2])
      == if r == c then Determinant3(x) else 0.0
  {
    hide Minor, Sum3, Cofactor, Determinant3, RowBox;
    DeterminantIsBox(x);
    ColumnBoxes(x, c, r);
    ColumnCofactors(x, r);
    Commuted(x[c][0], x[c][1], x[c][2], Cofactor(x, 0, r), Cofactor(x, 1, r), Cofactor(x, 2, r));
  }

  lemma Commuted(p: real, q: real, s: real, u: real, v: real, w: real)
    ensures Sum3(p, q, s, u, v, w) == Sum3(u, v, w, p, q, s)
  {
  }

  /** The cofactors of a column are minors of the two next columns. */
  lemma ColumnCofactors(x: Matrix, r: nat)
    requires IsSquare(x, 3) && r < 3
    ensures var u, v := x[(r + 1) % 3], x[(r + 2) % 3];
      && Cofactor(x, 0, r) == Minor(u[1], u[2], v[1], v[2])
      && Cofactor(x, 1, r) == Minor(u[2], u[0], v[2], v[0])
      && Cofactor(x, 2, r) == Minor(u[0], u[1], v[0], v[1])
  {
    var u, v := x[(r + 1) % 3], x[(r + 2) % 3];
    Transposed(u[1], v[1], u[2], v[2]);
    Transposed(u[2], v[2], u[0], v[0]);
    Transposed(u[0], v[0], u[1], v[1]);
    hide Minor;
  }

  lemma Transposed(p: real, q: real, r: real, s: real)
    ensures Minor(p, q, r, s) == Minor(p, r, q, s) == Minor(s, r, q, p)
  {
  }

  lemma RowsTimesCofactors(x: Matrix, c: nat, r: nat)
    requires IsSquare(x, 3) && c < 3 && r < 3
    ensures Apply(x, Cofactors3(x)[c])[r] == if r == c then Determinant3(x) else 0.0
  {
    hide Sum3, Cofactor, Determinant3, Apply;
    RowExpansion(x, c, r);
    Apply3(x, Cofactors3(x)[c], r);
  }

  lemma CofactorsTimesColumns(x: Matrix, c: nat, r: nat)
    requires IsSquare(x, 3) && c < 3 && r < 3
    ensures Apply(Cofactors3(x), x[c])[r] == if r == c then Determinant3(x) else 0.0
  {
    hide Sum3, Cofactor, Determinant3, Apply;
    ColumnExpansion(x, c, r);
    Apply3(Cofactors3(x), x[c], r);
  }

  lemma Adjugate3(x: Matrix)
    requires IsSquare(x, 3)
    ensures IsAdjugate(x, Cofactors3(x), Determinant3(x))
  {
    hide Cofactor, Determinant3, Apply;
    forall c, r | 0 <= c < 3 && 0 <= r < 3
      ensures Apply(x, Cofactors3(x)[c])[r] == if r == c then Determinant3(x) else 0.0
      ensures Apply(Cofactors3(x), x[c])[r] == if r == c then Determinant3(x) else 0.0
    {
      RowsTimesCofactors(x, c, r);
      CofactorsTimesColumns(x, c, r);
    }
  }

  method FastInverse3(x: Matrix) returns (inverted: Matrix)
    requires IsSquare(x, 3) && Determinant3(x) != 0.0
    ensures IsInverse(x, inverted)
  {
    hide Determinant3, Cofactors3, IsInverse;
    var det;
    inverted, det := UnscaledInverse3(x);
    inverted := DivideAll(inverted, det);
    ClosedForm3(x);
  }

  /** The nine differences of products, and the sum that is the determinant. */
  method UnscaledInverse3(x: Matrix) returns (inverted: Matrix, det: real)
    requires IsSquare(x, 3)
    ensures inverted == Cofactors3(x) && det == Determinant3(x)
  {
    var a, b, c := x[0][0], x[1][0], x[2][0];
    var d, e, f := x[0][1], x[1][1], x[2][1];
    var g, h, i := x[0][2], x[1][2], x[2][2];
    hide Minor, Sum3;
    var A := Minor(e, f, h, i);
    var B := Minor(f, d, i, g);
    var C := Minor(d, e, g, h);
    inverted := [[A, B, C],
                 [Minor(c, b, i, h), Minor(a, c, g, i), Minor(b, a, h, g)],
                 [Minor(b, c, e, f), Minor(c, a, f, d), Minor(a, b, d, e)]];
    det := Sum3(a, b, c, A, B, C);
    AnalyticCofactors3(x, inverted);
  }

  lemma ClosedForm3(x: Matrix)
    requires IsSquare(x, 3) && Determinant3(x) != 0.0
    ensures IsInverse(x, AllOver(Cofactors3(x), Determinant3(x)))
  {
    hide Determinant3, Cofactor;
    Adjugate3(x);
    AdjugateInverse(x, Cofactors3(x), Determinant3(x));
  }

  lemma AnalyticCofactors3(x: Matrix, y: Matrix)
    requires IsSquare(x, 3) && IsSquare(y, 3)
    requires y[0][0] == Minor(x[1][1], x[2][1], x[1][2], x[2][2])
    requires y[0][1] == Minor(x[2][1], x[0][1], x[2][2], x[0][2])
    requires y[0][2] == Minor(x[0][1], x[1][1], x[0][2], x[1][2])
    requires y[1][0] == Minor(x[2][0], x[1][0], x[2][2], x[1][2])
    requires y[1][1] == Minor(x[0][0], x[2][0], x[0][2], x[2][2])
    requires y[1][2] == Minor(x[1][0], x[0][0], x[1][2], x[0][2])
    requires y[2][0] == Minor(x[1][0], x[2][0], x[1][1], x[2][1])
    requires y[2][1] == Minor(x[2][0], x[0][0], x[2][1], x[0][1])
    requires y[2][2] == Minor(x[0][0], x[1][0], x[0][1], x[1][1])
    ensures y == Cofactors3(x)
  {
    Transposed(x[2][0], x[1][0], x[2][2], x[1][2]);
    Transposed(x[0][0], x[2][0], x[0][2], x[2][2]);
    Transposed(x[1][0], x[0][0], x[1][2], x[0][2]);
    hide Minor;
    SameColumns3(y, Cofactors3(x));
  }

  lemma SameColumns3(y: Matrix, z: Matrix)
    requires IsSquare(y, 3) && IsSquare(z, 3)
    requires y[0][0] == z[0][0] && y[0][1] == z[0][1] && y[0][2] == z[0][2]
    requires y[1][0] == z[1][0] && y[1][1] == z[1][1] && y[1][2] == z[1][2]
    requires y[2][0] == z[2][0] && y[2][1] == z[2][1] && y[2][2] == z[2][2]
    ensures y == z
  {
    assert y[0] == z[0] && y[1] == z[1] && y[2] == z[2];
  }

  /** Divides every entry in place. */
  method DivideAll(m: Matrix, det: real) returns (inverted: Matrix)
    requires IsSquare(m, |m|) && det != 0.0
    ensures inverted == AllOver(m, det)
  {
    inverted := m;
    for col := 0 to |m|
      invariant |inverted| == |m|
      invariant forall c | 0 <= c < |m| :: inverted[c] == if c < col then Over(m[c], det) else m[c]
    {
      for row := 0 to |m|
        invariant |inverted| == |m| && |inverted[col]| == |m|
        invariant forall r | 0 <= r < |m| :: inverted[col][r] == if r < row then m[col][r] / det else m[col][r]
        invariant forall c | 0 <= c < |m| && c != col ::
          inverted[c] == if c < col then Over(m[c], det) else m[c]
      {
        inverted := inverted[col := inverted[col][row := inverted[col][row] / det]];
      }
    }
  }

  // ----- a trivial null space rules out a zero determinant

  lemma Dot2(p: real, q: real, w: Vector)
    requires |w| == 2
    ensures Dot([p, q], w) == Sum2(p, q, w[0], w[1])
  {
    var u := [p, q];
    assert DotTo(u, w, 1) == DotTo(u, w, 0) + u[0] * w[0];
  }

  lemma Dot3(p: real, q: real, s: real, w: Vector)
    requires |w| == 3
    ensures Dot([p, q, s], w) == Sum3(p, q, s, w[0], w[1], w[2])
  {
    var u := [p, q, s];
    assert DotTo(u, w, 1) == DotTo(u, w, 0) + u[0] * w[0];
    assert DotTo(u, w, 2) == DotTo(u, w, 1) + u[1] * w[1];
  }

  lemma OrthogonalIsZero(x: Matrix, v: Vector)
    requires IsSquare(x, |v|) && TrivialNull(x)
    requires forall c | 0 <= c < |v| :: Dot(v, x[c]) == 0.0
    ensures forall k | 0 <= k < |v| :: v[k] == 0.0
  {
    assert Annihilates(v, x);
  }

  /** With a trivial null space, a row vector orthogonal to all columns has zero entries. */
  lemma Forced2(x: Matrix, p: real, q: real)
    requires IsSquare(x, 2) && TrivialNull(x)
    requires Sum2(p, q, x[0][0], x[0][1]) == Sum2(p, q, x[1][0], x[1][1]) == 0.0
    ensures p == 0.0 && q == 0.0
  {
    hide Sum2, Dot;
    forall c | 0 <= c < 2
      ensures Dot([p, q], x[c]) == 0.0
    {
      Dot2(p, q, x[c]);
    }
    OrthogonalPair(x, p, q);
  }

  lemma OrthogonalPair(x: Matrix, p: real, q: real)
    requires IsSquare(x, 2) && TrivialNull(x)
    requires forall c | 0 <= c < 2 :: Dot([p, q], x[c]) == 0.0
    ensures p == 0.0 && q == 0.0
  {
    hide Dot;
    OrthogonalIsZero(x, [p, q]);
    assert [p, q][0] == p && [p, q][1] == q;
  }

  lemma Forced3(x: Matrix, p: real, q: real, s: real)
    requires IsSquare(x, 3) && TrivialNull(x)
    requires Sum3(p, q, s, x[0][0], x[0][1], x[0][2]) == 0.0
    requires Sum3(p, q, s, x[1][0], x[1][1], x[1][2]) == 0.0
    requires Sum3(p, q, s, x[2][0], x[2][1], x[2][2]) == 0.0
    ensures p == 0.0 && q == 0.0 && s == 0.0
  {
    hide Sum3, Dot;
    forall c | 0 <= c < 3
      ensures Dot([p, q, s], x[c]) == 0.0
    {
      Dot3(p, q, s, x[c]);
    }
    OrthogonalTriple(x, p, q, s);
  }

  lemma OrthogonalTriple(x: Matrix, p: real, q: real, s: real)
    requires IsSquare(x, 3) && TrivialNull(x)
    requires forall c | 0 <= c < 3 :: Dot([p, q, s], x[c]) == 0.0
    ensures p == 0.0 && q == 0.0 && s == 0.0
  {
    hide Dot;
    OrthogonalIsZero(x, [p, q, s]);
    assert [p, q, s][0] == p && [p, q, s][1] == q && [p, q, s][2] == s;
  }

  /** A column (a, b) next to a column (c, d), when the determinant is zero. */
  lemma SingularSums2(a: real, b: real, c: real, d: real)
    requires Minor(a, c, b, d) == 0.0
    ensures Sum2(b, -a, a, b) == Sum2(b, -a, c, d) == 0.0
    ensures Sum2(d, -c, a, b) == Sum2(d, -c, c, d) == 0.0
    ensures a == b == c == d == 0.0 ==> Sum2(1.0, 0.0, a, b) == Sum2(1.0, 0.0, c, d) == 0.0
  {
  }

  lemma Determinant2NonZero(x: Matrix)
    requires IsSquare(x, 2) && TrivialNull(x)
    ensures Determinant2(x) != 0.0
  {
    if Determinant2(x) == 0.0 {
      SingularHasNull2(x);
      assert false;
    }
  }

  lemma SingularHasNull2(x: Matrix)
    requires IsSquare(x, 2) && Determinant2(x) == 0.0
    ensures !TrivialNull(x)
  {
    if TrivialNull(x) {
      SingularSums2(x[0][0], x[0][1], x[1][0], x[1][1]);
      hide Sum2, Minor, TrivialNull;
      Forced2(x, x[0][1], -x[0][0]);
      Forced2(x, x[1][1], -x[1][0]);
      Forced2(x, 1.0, 0.0);
      assert false;
    }
  }

  /** With a zero determinant and a trivial null space, the columns are pairwise parallel. */
  lemma CofactorsVanish(x: Matrix, r: nat)
    requires IsSquare(x, 3) && r < 3 && TrivialNull(x) && Determinant3(x) == 0.0
    ensures Cofactor(x, 0, r) == Cofactor(x, 1, r) == Cofactor(x, 2, r) == 0.0
  {
    hide Sum3, Cofactor, Determinant3, TrivialNull;
    ColumnExpansion(x, 0, r);
    ColumnExpansion(x, 1, r);
    ColumnExpansion(x, 2, r);
    Forced3(x, Cofactor(x, 0, r), Cofactor(x, 1, r), Cofactor(x, 2, r));
  }

  lemma SingularHasNull3(x: Matrix)
    requires IsSquare(x, 3) && Determinant3(x) == 0.0
    ensures !TrivialNull(x)
  {
    if TrivialNull(x) {
      hide Sum3, Cofactor, Determinant3, TrivialNull;
      CofactorsVanish(x, 0);
      CofactorsVanish(x, 1);
      CofactorsVanish(x, 2);
      ParallelColumn(x, 0);
      ParallelColumn(x, 1);
      ParallelColumn(x, 2);
      OnlyFirst(x[0][0], x[0][1], x[0][2]);
      OnlyFirst(x[1][0], x[1][1], x[1][2]);
      OnlyFirst(x[2][0], x[2][1], x[2][2]);
      Forced3(x, 1.0, 0.0, 0.0);
      assert false;
    }
  }

  lemma Determinant3NonZero(x: Matrix)
    requires IsSquare(x, 3) && TrivialNull(x)
    ensures Determinant3(x) != 0.0
  {
    hide Determinant3, TrivialNull;
    if Determinant3(x) == 0.0 {
      SingularHasNull3(x);
      assert false;
    }
  }

  lemma OnlyFirst(u: real, v: real, w: real)
    ensures Sum3(1.0, 0.0, 0.0, u, v, w) == u
  {
  }

  /** Columns whose minors with column `c` in the first two rows vanish. */
  lemma ParallelColumn(x: Matrix, c: nat)
    requires IsSquare(x, 3) && c < 3 && TrivialNull(x)
    requires Cofactor(x, 2, 0) == Cofactor(x, 2, 1) == Cofactor(x, 2, 2) == 0.0
    ensures x[c][0] == 0.0
  {
    ParallelSums(x, c, 0);
    ParallelSums(x, c, 1);
    ParallelSums(x, c, 2);
    hide Sum3, Cofactor, TrivialNull;
    Forced3(x, x[c][1], -x[c][0], 0.0);
  }

  lemma ParallelSums(x: Matrix, c: nat, k: nat)
    requires IsSquare(x, 3) && c < 3 && k < 3
    requires Cofactor(x, 2, 0) == Cofactor(x, 2, 1) == Cofactor(x, 2, 2) == 0.0
    ensures Sum3(x[c][1], -x[c][0], 0.0, x[k][0], x[k][1], x[k][2]) == 0.0
  {
    MinorSum(x[c][0], x[c][1], x[k][0], x[k][1], x[k][2]);
    MinorSum(x[k][0], x[k][1], x[c][0], x[c][1], x[c][2]);
    hide Minor, Sum3;
  }

  lemma MinorSum(a: real, b: real, u: real, v: real, w: real)
    ensures Sum3(b, -a, 0.0, u, v, w) == -Minor(a, u, b, v) == Minor(u, a, v, b)
    ensures a == u && b == v ==> Minor(a, u, b, v) == 0.0
  {
  }

  // ----- the choice by size

  /** The inverse of an invertible matrix of any size. As the inverse is unique, sizes 2 and 3
      get from the closed forms what the elimination would have given. */
  method Inverse(matrix: Matrix) returns (result: Matrix)
    requires HasInverse(matrix)
    ensures IsInverse(matrix, result)
    ensures forall x | IsInverse(matrix, x) :: x == result
  {
    InvertibleMeansTrivialNull(matrix);
    if |matrix| == 2 {
      Determinant2NonZero(matrix);
      result := FastInverse2(matrix);
    } else if |matrix| == 3 {
      Determinant3NonZero(matrix);
      result := FastInverse3(matrix);
    } else {
      result := GaussJordanInverse(matrix);
    }
    forall x | IsInverse(matrix, x)
      ensures x == result
    {
      InverseIsUnique(matrix, x, result);
    }
  }
}
