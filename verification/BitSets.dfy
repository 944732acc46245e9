/** Sets of indices kept in the bits of a word of 32, 64 or any other width, the most significant bit
    first. A word is its bits, and the operators on words are bit by bit. */
module BitSets {
  import opened FiniteSets

  type Word = seq<bool>

  function Not(a: Word): (r: Word)
    ensures |r| == |a|
  {
    seq(|a|, i requires 0 <= i < |a| => !a[i])
  }

  function And(a: Word, b: Word): (r: Word)
    requires |a| == |b|
    ensures |r| == |a|
  {
    seq(|a|, i requires 0 <= i < |a| => a[i] && b[i])
  }

  function Or(a: Word, b: Word): (r: Word)
    requires |a| == |b|
    ensures |r| == |a|
  {
    seq(|a|, i requires 0 <= i < |a| => a[i] || b[i])
  }

  function ShiftRight(a: Word, n: nat): (r: Word)
    ensures |r| == |a|
  {
    seq(|a|, i requires 0 <= i < |a| => i >= n && a[i - n])
  }

  function Zero(width: nat): (r: Word)
    ensures |r| == width
  {
    seq(width, _ => false)
  }

  function Ones(width: nat): (r: Word)
    ensures |r| == width
  {
    seq(width, _ => true)
  }

  /** The word with only its first bit set. */
  function Top(width: nat): (r: Word)
    ensures |r| == width
  {
    seq(width, i => i == 0)
  }

  function PopCount(a: Word): (n: nat)
    ensures n <= |a|
  {
    if a == [] then 0 else PopCount(a[..|a| - 1]) + if a[|a| - 1] then 1 else 0
  }

  /** The number of leading zeros; the instruction's result is undefined for zero. */
  function LeadingZeros(a: Word): (n: nat)
    requires a != Zero(|a|)
    ensures n < |a| && a[n] && forall i | 0 <= i < n :: !a[i]
  {
    if a[0] then 0
    else
      assert a[1..] != Zero(|a| - 1) by {
        assert a == [false] + a[1..];
        assert Zero(|a|) == [false] + Zero(|a| - 1);
      }
      1 + LeadingZeros(a[1..])
  }

  function TrailingZeros(a: Word): (n: nat)
    requires a != Zero(|a|)
    ensures n < |a| && a[|a| - 1 - n] && forall i | |a| - 1 - n < i < |a| :: !a[i]
  {
    if a[|a| - 1] then 0
    else
      assert a[..|a| - 1] != Zero(|a| - 1) by {
        assert a == a[..|a| - 1] + [false];
        assert Zero(|a|) == Zero(|a| - 1) + [false];
      }
      1 + TrailingZeros(a[..|a| - 1])
  }

  // ----- the operations on words

  function ValueForBit(width: nat, n: nat): (r: Word)
    requires n < width
    ensures |r| == width && forall i | 0 <= i < width :: r[i] <==> i == n
  {
    ShiftRight(Top(width), n)
  }

  /** The number that a word is. */
  function Number(a: Word): (n: nat) {
    if a == [] then 0 else 2 * Number(a[..|a| - 1]) + if a[|a| - 1] then 1 else 0
  }

  function Power(k: nat): (n: nat) {
    if k == 0 then 1 else 2 * Power(k - 1)
  }

  /** Marking a bit that is not marked adds its value, which is the word's highest bit shifted right by the index. */
  lemma {:induction false} MarkAddsValue(a: Word, b: Word, n: nat)
    requires n < |a| == |b| && !a[n] && b[n] && forall i | 0 <= i < |a| && i != n :: a[i] == b[i]
    ensures Number(b) == Number(a) + Power(|a| - 1 - n)
    decreases |a|
  {
    var last := |a| - 1;
    if n < last {
      MarkAddsValue(a[..last], b[..last], n);
    } else {
      assert a[..last] == b[..last];
    }
  }

  lemma {:induction false} ZeroIsZero(width: nat)
    ensures Number(Zero(width)) == 0
  {
    if width > 0 {
      ZeroIsZero(width - 1);
      assert Zero(width)[..width - 1] == Zero(width - 1);
    }
  }

  /** The value of a bit: the first is the most significant. */
  lemma ValueOfBit(width: nat, n: nat)
    requires n < width
    ensures Number(ValueForBit(width, n)) == Power(width - 1 - n)
  {
    MarkAddsValue(Zero(width), ValueForBit(width, n), n);
    ZeroIsZero(width);
  }

  /** The indices that a word stands for. */
  ghost function Indices(value: Word): (s: set<nat>) {
    set n: nat | n < |value| && value[n]
  }

  ghost function Below(s: set<nat>, n: nat): (r: set<nat>) {
    set m | m in s && m < n
  }

  function GetIndexOfBit(value: Word, n: nat): (k: nat)
    requires n < |value|
  {
    PopCount(And(value, Not(ShiftRight(Ones(|value|), n))))
  }

  lemma {:induction false} PopCountIsSize(a: Word)
    ensures PopCount(a) == |Indices(a)|
  {
    if a != [] {
      var before, n := a[..|a| - 1], |a| - 1;
      PopCountIsSize(before);
      assert Indices(before) == Indices(a) - {n};
      assert n in Indices(a) <==> a[n];
    }
  }

  /** The index of a bit is how many marked bits come before it. */
  lemma IndexIsRank(value: Word, n: nat)
    requires n < |value|
    ensures GetIndexOfBit(value, n) == |Below(Indices(value), n)|
  {
    var masked := And(value, Not(ShiftRight(Ones(|value|), n)));
    PopCountIsSize(masked);
    assert Indices(masked) == Below(Indices(value), n);
  }

  /** Later marked bits have larger indices, so that each index belongs to one marked bit only. */
  lemma IndexGrows(value: Word, m: nat, n: nat)
    requires m < n < |value| && value[m]
    ensures GetIndexOfBit(value, m) < GetIndexOfBit(value, n)
  {
    IndexIsRank(value, m);
    IndexIsRank(value, n);
    var a, b := Below(Indices(value), m), Below(Indices(value), n);
    assert m in b && m !in a && a <= b;
    SmallerSet(a, b, m);
  }

  lemma SmallerSet(a: set<nat>, b: set<nat>, m: nat)
    requires a <= b && m in b && m !in a
    ensures |a| < |b|
  {
    assert a <= b - {m};
    SubsetSize(a, b - {m});
  }

  // ----- sequences of operations

  datatype Op = Mark(n: nat) | Clear(n: nat)

  function Marked(value: Word, n: nat): (r: Word)
    requires n < |value|
    ensures |r| == |value| && Indices(r) == Indices(value) + {n}
  {
    Or(value, ValueForBit(|value|, n))
  }

  function Cleared(value: Word, n: nat): (r: Word)
    requires n < |value|
    ensures |r| == |value| && Indices(r) == Indices(value) - {n}
  {
    And(value, Not(ValueForBit(|value|, n)))
  }

  function Run(value: Word, ops: seq<Op>): (r: Word)
    requires forall op | op in ops :: op.n < |value|
    ensures |r| == |value|
  {
    if ops == [] then value
    else
      var before := Run(value, ops[..|ops| - 1]);
      match ops[|ops| - 1]
      case Mark(n) => Marked(before, n)
      case Clear(n) => Cleared(before, n)
  }

  predicate Untouched(ops: seq<Op>, start: nat, n: nat) {
    forall j | start <= j < |ops| :: ops[j].n != n
  }

  predicate LastMarked(ops: seq<Op>, i: nat, n: nat) {
    i < |ops| && ops[i] == Mark(n) && Untouched(ops, i + 1, n)
  }

  /** The set after the operations, without running them: the last operation on an index decides. */
  ghost predicate Decided(value: Word, ops: seq<Op>, n: nat) {
    (exists i: nat :: LastMarked(ops, i, n)) || (n in Indices(value) && Untouched(ops, 0, n))
  }

  lemma DecidedByOther(value: Word, ops: seq<Op>, op: Op, n: nat)
    requires op.n != n
    ensures Decided(value, ops + [op], n) <==> Decided(value, ops, n)
  {
    var more := ops + [op];
    forall k: nat
      ensures Untouched(more, k, n) <==> Untouched(ops, k, n)
    {
      assert forall j | 0 <= j < |ops| :: more[j] == ops[j];
    }
    if i: nat :| LastMarked(ops, i, n) {
      assert LastMarked(more, i, n);
    }
    if i: nat :| LastMarked(more, i, n) {
      assert LastMarked(ops, i, n);
    }
  }

  lemma DecidedByLast(value: Word, ops: seq<Op>, op: Op, n: nat)
    requires op.n == n
    ensures Decided(value, ops + [op], n) <==> op.Mark?
  {
    var more := ops + [op];
    assert more[|ops|] == op;
    assert op.Mark? ==> LastMarked(more, |ops|, n);
  }

  /** Index `n` is in the set exactly when the last operation on it marked it, or it was in and none was. */
  lemma {:induction false} LastOperationDecides(value: Word, ops: seq<Op>, n: nat)
    requires (forall op | op in ops :: op.n < |value|) && n < |value|
    ensures n in Indices(Run(value, ops)) <==> Decided(value, ops, n)
  {
    if ops != [] {
      var before, last := ops[..|ops| - 1], ops[|ops| - 1];
      LastOperationDecides(value, before, n);
      assert before + [last] == ops;
      hide Decided, Indices;
      if last.n == n {
        DecidedByLast(value, before, last, n);
      } else {
        DecidedByOther(value, before, last, n);
      }
    }
  }

  lemma FullIsOnes(value: Word)
    ensures value == Ones(|value|) <==> forall n: nat | n < |value| :: n in Indices(value)
  {
    if forall n: nat | n < |value| :: n in Indices(value) {
      forall n | 0 <= n < |value|
        ensures value[n]
      {
        assert n in Indices(value);
      }
    }
  }

  lemma NotOfOthers(value: Word)
    requires value != Ones(|value|)
    ensures Not(value) != Zero(|value|)
  {
    var i :| 0 <= i < |value| && !value[i];
    assert Not(value)[i];
  }

  lemma FirstUnmarked(value: Word)
    requires Not(value) != Zero(|value|)
    ensures var n := LeadingZeros(Not(value)); n !in Indices(value) && forall m | 0 <= m < n :: m in Indices(value)
  {
    forall m | 0 <= m < LeadingZeros(Not(value))
      ensures m in Indices(value)
    {
      assert !Not(value)[m];
    }
  }

  class BitSet {
    var value: Word

    constructor (width: nat)
      ensures |value| == width && Indices(value) == {}
    {
      value := Zero(width);
    }

    predicate HasBit(n: nat)
      requires n < |value|
      reads this
      ensures HasBit(n) <==> n in Indices(value)
    {
      assert And(value, ValueForBit(|value|, n))[n] == value[n];
      And(value, ValueForBit(|value|, n)) != Zero(|value|)
    }

    predicate IsEmpty()
      reads this
      ensures IsEmpty() <==> Indices(value) == {}
    {
      assert value != Zero(|value|) ==> LeadingZeros(value) in Indices(value);
      value == Zero(|value|)
    }

    predicate IsFull()
      reads this
      ensures IsFull() <==> forall n: nat | n < |value| :: n in Indices(value)
    {
      FullIsOnes(value);
      value == Ones(|value|)
    }

    function Count(): (n: nat)
      reads this
      ensures n == |Indices(value)|
    {
      PopCountIsSize(value);
      PopCount(value)
    }

    function FirstMarkedBit(): (n: nat)
      requires !IsEmpty()
      reads this
      ensures n in Indices(value) && forall m | m in Indices(value) :: n <= m
    {
      LeadingZeros(value)
    }

    function FirstUnmarkedBit(): (n: nat)
      requires !IsFull()
      reads this
      ensures n < |value| && n !in Indices(value) && forall m | 0 <= m < n :: m in Indices(value)
    {
      NotOfOthers(value);
      FirstUnmarked(value);
      LeadingZeros(Not(value))
    }

    function LastMarkedBit(): (n: nat)
      requires !IsEmpty()
      reads this
      ensures n in Indices(value) && forall m | m in Indices(value) :: m <= n
    {
      |value| - 1 - TrailingZeros(value)
    }

    method MarkBit(n: nat)
      requires n < |value|
      modifies this
      ensures |value| == |old(value)| && Indices(value) == Indices(old(value)) + {n}
    {
      value := Or(value, ValueForBit(|value|, n));
    }

    method ClearBit(n: nat)
      requires n < |value|
      modifies this
      ensures |value| == |old(value)| && Indices(value) == Indices(old(value)) - {n}
    {
      value := And(value, Not(ValueForBit(|value|, n)));
    }

    method ClearFirstMarkedBit() returns (n: nat)
      requires !IsEmpty()
      modifies this
      ensures n in Indices(old(value)) && forall m | m in Indices(old(value)) :: n <= m
      ensures |value| == |old(value)| && Indices(value) == Indices(old(value)) - {n}
    {
      n := FirstMarkedBit();
      ClearBit(n);
    }

    method MarkFirstUnmarkedBit() returns (n: nat)
      requires !IsFull()
      modifies this
      ensures n !in Indices(old(value)) && forall m | 0 <= m < n :: m in Indices(old(value))
      ensures |value| == |old(value)| && Indices(value) == Indices(old(value)) + {n}
    {
      n := FirstUnmarkedBit();
      MarkBit(n);
    }

    method ClearLastMarkedBit() returns (n: nat)
      requires !IsEmpty()
      modifies this
      ensures n in Indices(old(value)) && forall m | m in Indices(old(value)) :: m <= n
      ensures |value| == |old(value)| && Indices(value) == Indices(old(value)) - {n}
    {
      n := LastMarkedBit();
      ClearBit(n);
    }

    /** Takes out the bits one by one. It takes as many rounds as there are bits, in ascending order, and
        the `k`th bit taken is the one whose index was `k`. */
    method Drain() returns (taken: seq<nat>)
      modifies this
      ensures Indices(value) == {} && |taken| == |Indices(old(value))|
      ensures forall i, j | 0 <= i < j < |taken| :: taken[i] < taken[j]
      ensures forall k | 0 <= k < |taken| :: taken[k] in Indices(old(value)) && GetIndexOfBit(old(value), taken[k]) == k
    {
      taken := [];
      while !IsEmpty()
        invariant |value| == |old(value)|
        invariant Taken(old(value), value, taken)
        decreases |Indices(value)|
      {
        ghost var left := value;
        var n := ClearFirstMarkedBit();
        TakeOne(old(value), left, value, taken, n);
        taken := taken + [n];
      }
      assert Below(Indices(old(value)), 0) == {};
    }
  }

  /** Of the bits of `all`, `left` are left once `taken` are taken out, first ones first. */
  ghost predicate Taken(all: Word, left: Word, taken: seq<nat>) {
    && |left| == |all| && Indices(left) <= Indices(all)
    && |taken| + |Indices(left)| == |Indices(all)|
    && (forall i, j | 0 <= i < j < |taken| :: taken[i] < taken[j])
    && (forall k | 0 <= k < |taken| :: taken[k] in Indices(all) && GetIndexOfBit(all, taken[k]) == k)
    && (forall k, m | 0 <= k < |taken| && m in Indices(left) :: taken[k] < m)
    && (forall m | m in Indices(all) :: m in Indices(left) || m in taken)
  }

  /** The first bit left has as many bits before it as have been taken. */
  lemma RankOfFirst(all: Word, left: Word, taken: seq<nat>, n: nat)
    requires Taken(all, left, taken) && n in Indices(left) && (forall m | m in Indices(left) :: n <= m)
    ensures GetIndexOfBit(all, n) == |taken|
  {
    var before := Below(Indices(all), n);
    IndexIsRank(all, n);
    assert Indices(all) == before + Indices(left);
    assert before * Indices(left) == {};
  }

  lemma TakeOne(all: Word, left: Word, after: Word, taken: seq<nat>, n: nat)
    requires Taken(all, left, taken) && n in Indices(left) && (forall m | m in Indices(left) :: n <= m)
    requires |after| == |left| && Indices(after) == Indices(left) - {n}
    ensures Taken(all, after, taken + [n])
  {
    RankOfFirst(all, left, taken, n);
    hide GetIndexOfBit;
    var more := taken + [n];
    assert forall k | 0 <= k < |taken| :: more[k] == taken[k];
    assert forall m | m in taken :: m in more;
  }
}
