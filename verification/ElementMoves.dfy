/** Moving elements within one block of memory, one by one, with their lifetimes: a slot is raw memory
    or holds a live element; construction needs raw memory, copying and destruction a live element. */
module ElementMoves {

  datatype Slot<T> = Raw | Live(value: T)

  /** The run of `n` slots from `at`. */
  predicate InRun(i: int, at: int, n: int) {
    at <= i < at + n
  }

  /** Memory after the `n` elements at `s` have moved to `d`, whatever the overlap: what a move of the whole
      block at once gives. Slots that are left keep their bits, or are raw if the elements were destroyed. */
  function Moved<T>(m: seq<Slot<T>>, d: nat, s: nat, n: nat, clears: bool): (r: seq<Slot<T>>)
    requires d + n <= |m| && s + n <= |m|
    ensures |r| == |m|
  {
    seq(|m|, i requires 0 <= i < |m| =>
      if InRun(i, d, n) then m[s + (i - d)] else if InRun(i, s, n) && clears then Raw else m[i])
  }

  /** What a move finds: elements to move, and, if they are to be destroyed once copied, raw memory to
      move them to wherever none of them lies. */
  ghost predicate Ready<T>(m: seq<Slot<T>>, d: nat, s: nat, n: nat, clears: bool) {
    && d + n <= |m| && s + n <= |m|
    && (forall i | InRun(i, s, n) :: m[i].Live?)
    && (clears ==> forall i | InRun(i, d, n) && !InRun(i, s, n) :: m[i].Raw?)
  }

  predicate Disjoint(d: nat, s: nat, n: nat) {
    d + n <= s || s + n <= d
  }

  /** The elements in `n` slots from `at`, last first. */
  function LastFirst<T>(m: seq<Slot<T>>, at: nat, n: nat): (vs: seq<Slot<T>>)
    requires at + n <= |m|
  {
    seq(n, i requires 0 <= i < n => m[at + n - 1 - i])
  }

  /** The elements in `n` slots from `at`, first first. */
  function FirstFirst<T>(m: seq<Slot<T>>, at: nat, n: nat): (vs: seq<Slot<T>>)
    requires at + n <= |m|
  {
    m[at..at + n]
  }

  lemma NothingMoved<T>(m: seq<Slot<T>>, d: nat, s: nat, clears: bool)
    requires d <= |m| && s <= |m|
    ensures Moved(m, d, s, 0, clears) == m
    ensures LastFirst(m, s, 0) == FirstFirst(m, s, 0) == []
  {
  }

  /** Moving from the last element down, one more: the element has not been touched, its target is free. */
  lemma ForwardStep<T>(m: seq<Slot<T>>, d: nat, s: nat, n: nat, k: nat, clears: bool)
    requires Ready(m, d, s, n, clears) && k < n && (d > s || Disjoint(d, s, n))
    ensures var mid := Moved(m, d + k + 1, s + k + 1, n - k - 1, clears);
      && mid[s + k] == m[s + k] && m[s + k].Live? && (clears ==> mid[d + k].Raw?)
      && Moved(mid, d + k, s + k, 1, clears) == Moved(m, d + k, s + k, n - k, clears)
    ensures LastFirst(m, s + k, n - k) == LastFirst(m, s + k + 1, n - k - 1) + [m[s + k]]
  {
    var mid := Moved(m, d + k + 1, s + k + 1, n - k - 1, clears);
    assert d + k < s + k + 1 ==> d + k < s;
    assert Moved(mid, d + k, s + k, 1, clears) == Moved(m, d + k, s + k, n - k, clears);
  }

  lemma BackwardStep<T>(m: seq<Slot<T>>, d: nat, s: nat, n: nat, k: nat, clears: bool)
    requires Ready(m, d, s, n, clears) && k < n && (d < s || Disjoint(d, s, n))
    ensures var mid := Moved(m, d, s, k, clears);
      && mid[s + k] == m[s + k] && m[s + k].Live? && (clears ==> mid[d + k].Raw?)
      && Moved(mid, d + k, s + k, 1, clears) == Moved(m, d, s, k + 1, clears)
    ensures FirstFirst(m, s, k + 1) == FirstFirst(m, s, k) + [m[s + k]]
  {
  }

  // ----- when the loops are safe

  /** Memory after one element has moved and been destroyed. */
  function OneMoved<T>(m: seq<Slot<T>>, d: nat, s: nat): (r: seq<Slot<T>>)
    requires d < |m| && s < |m|
  {
    m[d := m[s]][s := Raw]
  }

  /** Every round of the loop from the last element down copies a live element to raw memory. */
  ghost predicate ForwardIsSafe<T>(m: seq<Slot<T>>, d: nat, s: nat, n: nat)
    requires d + n <= |m| && s + n <= |m|
    decreases n
  {
    n == 0 || (m[s + n - 1].Live? && m[d + n - 1].Raw?
      && ForwardIsSafe(OneMoved(m, d + n - 1, s + n - 1), d, s, n - 1))
  }

  ghost predicate BackwardIsSafe<T>(m: seq<Slot<T>>, d: nat, s: nat, n: nat)
    requires d + n <= |m| && s + n <= |m|
    decreases n
  {
    n == 0 || (m[s].Live? && m[d].Raw? && BackwardIsSafe(OneMoved(m, d, s), d + 1, s + 1, n - 1))
  }

  /** The loop from the last element down may be used exactly when it moves up, or between runs that do
      not overlap. */
  lemma {:induction false} WhenForwardIsSafe<T>(m: seq<Slot<T>>, d: nat, s: nat, n: nat)
    requires Ready(m, d, s, n, true)
    ensures ForwardIsSafe(m, d, s, n) <==> n == 0 || d > s || Disjoint(d, s, n)
    decreases n
  {
    if n > 0 {
      if d > s || Disjoint(d, s, n) {
        WhenForwardIsSafe(OneMoved(m, d + n - 1, s + n - 1), d, s, n - 1);
      } else {
        assert InRun(d + n - 1, s, n);
      }
    }
  }

  /** The loop from the first element up may be used exactly when it moves down, or between runs that do
      not overlap. */
  lemma {:induction false} WhenBackwardIsSafe<T>(m: seq<Slot<T>>, d: nat, s: nat, n: nat)
    requires Ready(m, d, s, n, true)
    ensures BackwardIsSafe(m, d, s, n) <==> n == 0 || d < s || Disjoint(d, s, n)
    decreases n
  {
    if n > 0 {
      if d < s || Disjoint(d, s, n) {
        WhenBackwardIsSafe(OneMoved(m, d, s), d + 1, s + 1, n - 1);
      } else {
        assert InRun(d, s, n);
      }
    }
  }

  // ----- what the loops do where nothing is destroyed

  /** Memory after the loop from the last element down, if it only copies. */
  function CopiedDown<T>(m: seq<Slot<T>>, d: nat, s: nat, n: nat): (r: seq<Slot<T>>)
    requires d + n <= |m| && s + n <= |m|
    ensures |r| == |m|
    decreases n
  {
    if n == 0 then m else CopiedDown(m[d + n - 1 := m[s + n - 1]], d, s, n - 1)
  }

  /** Memory after the loop from the first element up, if it only copies. */
  function CopiedUp<T>(m: seq<Slot<T>>, d: nat, s: nat, n: nat): (r: seq<Slot<T>>)
    requires d + n <= |m| && s + n <= |m|
    ensures |r| == |m|
    decreases n
  {
    if n == 0 then m else CopiedUp(m[d := m[s]], d + 1, s + 1, n - 1)
  }

  /** Going down to lower addresses, the loop from the last element repeats what it has already written. */
  lemma {:induction false} CopiedDownRepeats<T>(m: seq<Slot<T>>, d: nat, s: nat, n: nat, i: nat)
    requires d + n <= |m| && s + n <= |m| && d < s && i < |m|
    ensures var r := CopiedDown(m, d, s, n);
      r[i] == if !InRun(i, d, n) then m[i] else if i + (s - d) < d + n then r[i + (s - d)] else m[i + (s - d)]
    decreases n
  {
    if n > 0 {
      var one := m[d + n - 1 := m[s + n - 1]];
      CopiedDownRepeats(one, d, s, n - 1, i);
      CopiedDownRepeats(one, d, s, n - 1, d + n - 1);
    }
  }

  /** Going up to higher addresses, so does the loop from the first element. */
  lemma {:induction false} CopiedUpRepeats<T>(m: seq<Slot<T>>, d: nat, s: nat, n: nat, i: nat)
    requires d + n <= |m| && s + n <= |m| && d > s && i < |m|
    ensures var r := CopiedUp(m, d, s, n);
      r[i] == if !InRun(i, d, n) then m[i] else if i - (d - s) >= d then r[i - (d - s)] else m[i - (d - s)]
    decreases n
  {
    if n > 0 {
      var one := m[d := m[s]];
      CopiedUpRepeats(one, d + 1, s + 1, n - 1, i);
      CopiedUpRepeats(one, d + 1, s + 1, n - 1, d);
    }
  }

  /** The elements that a move down writes over before it is done are those it writes there. */
  ghost predicate SameBelow<T>(m: seq<Slot<T>>, d: nat, s: nat, n: nat)
    requires d <= s && s + n <= |m|
  {
    forall i | s <= i < d + n :: m[i] == m[i + (s - d)]
  }

  ghost predicate SameAbove<T>(m: seq<Slot<T>>, d: nat, s: nat, n: nat)
    requires s <= d && d + n <= |m|
  {
    forall i | d <= i < s + n :: m[i] == m[i - (d - s)]
  }

  lemma {:induction false} CopiedDownMoves<T>(m: seq<Slot<T>>, d: nat, s: nat, n: nat)
    requires d + n <= |m| && s + n <= |m| && (d >= s || SameBelow(m, d, s, n))
    ensures CopiedDown(m, d, s, n) == Moved(m, d, s, n, false)
    decreases n
  {
    if n == 0 {
      NothingMoved(m, d, s, false);
    } else {
      var one := m[d + n - 1 := m[s + n - 1]];
      if d < s && s <= d + n - 1 {
        assert m[d + n - 1] == m[s + n - 1];
        assert one == m;
      }
      CopiedDownMoves(one, d, s, n - 1);
      assert Moved(one, d, s, n - 1, false) == Moved(m, d, s, n, false);
    }
  }

  lemma {:induction false} CopiedUpMoves<T>(m: seq<Slot<T>>, d: nat, s: nat, n: nat)
    requires d + n <= |m| && s + n <= |m| && (d <= s || SameAbove(m, d, s, n))
    ensures CopiedUp(m, d, s, n) == Moved(m, d, s, n, false)
    decreases n
  {
    if n == 0 {
      NothingMoved(m, d, s, false);
    } else {
      var one := m[d := m[s]];
      if s < d < s + n {
        assert m[d] == m[s];
        assert one == m;
      }
      CopiedUpMoves(one, d + 1, s + 1, n - 1);
      assert Moved(one, d + 1, s + 1, n - 1, false) == Moved(m, d, s, n, false);
    }
  }

  /** Where nothing is destroyed, the loop from the last element down gives the move exactly when it moves
      up, or each element it writes over too early is the one written there; it is if the runs do not overlap. */
  lemma WhenCopiedDownMoves<T>(m: seq<Slot<T>>, d: nat, s: nat, n: nat)
    requires d + n <= |m| && s + n <= |m|
    ensures CopiedDown(m, d, s, n) == Moved(m, d, s, n, false) <==> d >= s || SameBelow(m, d, s, n)
    ensures Disjoint(d, s, n) ==> d >= s || SameBelow(m, d, s, n)
  {
    var r := CopiedDown(m, d, s, n);
    if d >= s || SameBelow(m, d, s, n) {
      CopiedDownMoves(m, d, s, n);
    } else if r == Moved(m, d, s, n, false) {
      forall i | s <= i < d + n
        ensures m[i] == m[i + (s - d)]
      {
        CopiedDownRepeats(m, d, s, n, i - (s - d));
      }
    }
  }

  /** So does the loop from the first element up, in the other direction. */
  lemma WhenCopiedUpMoves<T>(m: seq<Slot<T>>, d: nat, s: nat, n: nat)
    requires d + n <= |m| && s + n <= |m|
    ensures CopiedUp(m, d, s, n) == Moved(m, d, s, n, false) <==> d <= s || SameAbove(m, d, s, n)
    ensures Disjoint(d, s, n) ==> d <= s || SameAbove(m, d, s, n)
  {
    var r := CopiedUp(m, d, s, n);
    if d <= s || SameAbove(m, d, s, n) {
      CopiedUpMoves(m, d, s, n);
    } else if r == Moved(m, d, s, n, false) {
      forall i | d <= i < s + n
        ensures m[i] == m[i - (d - s)]
      {
        CopiedUpRepeats(m, d, s, n, i + (d - s));
      }
    }
  }

  lemma MovedOne<T>(m: seq<Slot<T>>, d: nat, s: nat)
    requires d < |m| && s < |m|
    ensures Moved(m, d, s, 1, false) == m[d := m[s]]
  {
  }

  ghost predicate AllLive<T>(m: seq<Slot<T>>, s: nat, n: nat)
    requires s + n <= |m|
  {
    forall i | s <= i < s + n :: m[i].Live?
  }

  lemma StaysLive<T>(m: seq<Slot<T>>, d: nat, s: nat, at: nat, n: nat)
    requires d < |m| && s < |m| && m[s].Live? && at + n <= |m| && AllLive(m, at, n)
    ensures AllLive(m[d := m[s]], at, n)
  {
  }

  lemma AllCopied<T>(m: seq<Slot<T>>, d: nat, s: nat)
    requires d <= |m| && s <= |m|
    ensures CopiedDown(m, d, s, 0) == CopiedUp(m, d, s, 0) == m
  {
  }

  /** Moving elements and moving them back restores memory exactly, and the way back is always ready. */
  lemma MovedBack<T>(m: seq<Slot<T>>, d: nat, s: nat, n: nat)
    requires Ready(m, d, s, n, true)
    ensures Ready(Moved(m, d, s, n, true), s, d, n, true)
    ensures Moved(Moved(m, d, s, n, true), s, d, n, true) == m
  {
    var there := Moved(m, d, s, n, true);
    var back := Moved(there, s, d, n, true);
    forall i | 0 <= i < |m|
      ensures back[i] == m[i]
    {
      if InRun(i, s, n) {
        assert there[d + (i - s)] == m[s + (d + (i - s) - d)];
      }
    }
  }

  ghost predicate SameElements<T>(a: seq<Slot<T>>, b: seq<Slot<T>>) {
    multiset(a) == multiset(b)
  }

  lemma StillSameElements<T>(a: seq<Slot<T>>, b: seq<Slot<T>>, c: seq<Slot<T>>)
    requires SameElements(a, b) && SameElements(b, c)
    ensures SameElements(a, c)
  {
  }

  lemma OneMovedKeepsElements<T>(m: seq<Slot<T>>, d: nat, s: nat)
    requires d < |m| && s < |m| && m[d].Raw?
    ensures SameElements(OneMoved(m, d, s), m)
  {
    assert OneMoved(m, d, s) == m[d := m[s]][s := m[d]];
  }

  /** A move up is the move of the last element, then of the others. */
  lemma LastOneFirst<T>(m: seq<Slot<T>>, d: nat, s: nat, n: nat)
    requires Ready(m, d, s, n, true) && n > 0 && d > s
    ensures m[d + n - 1].Raw?
    ensures var one := OneMoved(m, d + n - 1, s + n - 1);
      Ready(one, d, s, n - 1, true) && Moved(one, d, s, n - 1, true) == Moved(m, d, s, n, true)
  {
  }

  /** A move down is the move of the first element, then of the others. */
  lemma FirstOneFirst<T>(m: seq<Slot<T>>, d: nat, s: nat, n: nat)
    requires Ready(m, d, s, n, true) && n > 0 && d < s
    ensures m[d].Raw?
    ensures var one := OneMoved(m, d, s);
      Ready(one, d + 1, s + 1, n - 1, true) && Moved(one, d + 1, s + 1, n - 1, true) == Moved(m, d, s, n, true)
  {
  }

  lemma {:induction false} MoveUpKeepsElements<T>(m: seq<Slot<T>>, d: nat, s: nat, n: nat)
    requires Ready(m, d, s, n, true) && d > s
    ensures SameElements(Moved(m, d, s, n, true), m)
    decreases n
  {
    if n == 0 {
      NothingMoved(m, d, s, true);
    } else {
      LastOneFirst(m, d, s, n);
      hide Ready, Moved, OneMoved, SameElements;
      var one := OneMoved(m, d + n - 1, s + n - 1);
      OneMovedKeepsElements(m, d + n - 1, s + n - 1);
      MoveUpKeepsElements(one, d, s, n - 1);
      StillSameElements(Moved(one, d, s, n - 1, true), one, m);
    }
  }

  lemma {:induction false} MoveDownKeepsElements<T>(m: seq<Slot<T>>, d: nat, s: nat, n: nat)
    requires Ready(m, d, s, n, true) && d < s
    ensures SameElements(Moved(m, d, s, n, true), m)
    decreases n
  {
    if n == 0 {
      NothingMoved(m, d, s, true);
    } else {
      FirstOneFirst(m, d, s, n);
      hide Ready, Moved, OneMoved, SameElements;
      var one := OneMoved(m, d, s);
      OneMovedKeepsElements(m, d, s);
      MoveDownKeepsElements(one, d + 1, s + 1, n - 1);
      StillSameElements(Moved(one, d + 1, s + 1, n - 1, true), one, m);
    }
  }

  /** Whatever the overlap, a move neither loses nor doubles an element. */
  lemma MoveKeepsElements<T>(m: seq<Slot<T>>, d: nat, s: nat, n: nat)
    requires Ready(m, d, s, n, true)
    ensures SameElements(Moved(m, d, s, n, true), m)
  {
    if d == s {
      assert Moved(m, d, s, n, true) == m;
    } else if d > s {
      MoveUpKeepsElements(m, d, s, n);
    } else {
      MoveDownKeepsElements(m, d, s, n);
    }
  }

  class Arena<T> {
    const slots: array<Slot<T>>
    /** The traits of the element type. */
    const trivialCopy: bool
    const trivialDtor: bool
    const trivialMove: bool
    /** The elements destroyed so far, in order. */
    ghost var destroyed: seq<Slot<T>>

    constructor (slots: array<Slot<T>>, trivialCopy: bool, trivialDtor: bool, trivialMove: bool)
      ensures this.slots == slots && destroyed == []
      ensures this.trivialCopy == trivialCopy && this.trivialDtor == trivialDtor && this.trivialMove == trivialMove
    {
      this.slots, this.trivialCopy, this.trivialDtor, this.trivialMove := slots, trivialCopy, trivialDtor, trivialMove;
      destroyed := [];
    }

    predicate UseTrivialMove() {
      (trivialDtor && trivialCopy) || trivialMove
    }

    /** Whether moving destroys the elements it has copied. */
    predicate Clears() {
      !UseTrivialMove() && !trivialDtor
    }

    /** Copy construction at `d` from `s`. Memory of a type without a destructor may be built on again. */
    method Construct(d: nat, s: nat)
      requires d < slots.Length && s < slots.Length
      requires slots[s].Live? && (trivialDtor || slots[d].Raw?)
      modifies slots
      ensures slots[..] == old(slots[..])[d := old(slots[s])]
    {
      slots[d] := slots[s];
    }

    /** Plain assignment of a type copied bit by bit: it needs nothing of its target. */
    method Assign(d: nat, s: nat)
      requires d < slots.Length && s < slots.Length
      requires slots[s].Live? && trivialCopy
      modifies slots
      ensures slots[..] == old(slots[..])[d := old(slots[s])]
    {
      slots[d] := slots[s];
    }

    method Destroy(s: nat)
      requires s < slots.Length && slots[s].Live?
      modifies slots, this`destroyed
      ensures slots[..] == old(slots[..])[s := Raw] && destroyed == old(destroyed) + [old(slots[s])]
    {
      destroyed := destroyed + [slots[s]];
      slots[s] := Raw;
    }

    method MemMove(d: nat, s: nat, n: nat)
      requires d + n <= slots.Length && s + n <= slots.Length
      modifies slots
      ensures slots[..] == Moved(old(slots[..]), d, s, n, false)
    {
      forall i | 0 <= i < n {
        slots[d + i] := slots[s + i];
      }
    }

    /** One round of either loop. */
    method MoveOne(d: nat, s: nat)
      requires !UseTrivialMove() && d < slots.Length && s < slots.Length && (d != s || trivialDtor)
      requires slots[s].Live? && (slots[d].Raw? || trivialDtor)
      modifies slots, this`destroyed
      ensures slots[..] == Moved(old(slots[..]), d, s, 1, Clears())
      ensures destroyed == if Clears() then old(destroyed) + [old(slots[s])] else old(destroyed)
    {
      if !trivialCopy {
        Construct(d, s);
      } else {
        Assign(d, s);
      }
      if !trivialDtor {
        Destroy(s);
      }
    }

    /** Moves the elements from the last to the first. Where none is destroyed, any direction is allowed. */
    method MoveForward(d: nat, s: nat, n: nat)
      requires Ready(slots[..], d, s, n, !trivialMove && !trivialDtor)
      requires trivialMove || trivialDtor || n == 0 || d > s || Disjoint(d, s, n)
      modifies slots, this`destroyed
      ensures trivialMove || (trivialCopy && trivialDtor) ==> slots[..] == Moved(old(slots[..]), d, s, n, false)
      ensures trivialDtor && !trivialCopy && !trivialMove ==> slots[..] == CopiedDown(old(slots[..]), d, s, n)
      ensures d >= s || Disjoint(d, s, n) ==>
        slots[..] == Moved(old(slots[..]), d, s, n, !trivialMove && !trivialDtor)
      ensures destroyed == if trivialMove || trivialDtor then old(destroyed)
                           else old(destroyed) + LastFirst(old(slots[..]), s, n)
    {
      if UseTrivialMove() {
        MemMove(d, s, n);
        return;
      }
      ghost var m, was := slots[..], destroyed;
      NothingMoved(m, d + n, s + n, true);
      WhenCopiedDownMoves(m, d, s, n);
      hide Moved, CopiedDown, LastFirst;
      var k := n;
      while k > 0
        invariant 0 <= k <= n && DownTo(m, was, d, s, n, k)
      {
        k := k - 1;
        ForwardRound(d, s, n, k, m, was);
      }
      AllCopied(slots[..], d, s);
    }

    /** Starting from memory `m` and `was`, all elements but the first `k` have moved. */
    ghost predicate DownTo(m: seq<Slot<T>>, was: seq<Slot<T>>, d: nat, s: nat, n: nat, k: nat)
      requires d + n <= |m| && s + n <= |m| && k <= n
      reads this, slots
    {
      if Clears() then
        && slots[..] == Moved(m, d + k, s + k, n - k, true)
        && destroyed == was + LastFirst(m, s + k, n - k)
      else
        && slots.Length == |m| && AllLive(slots[..], s, n)
        && CopiedDown(slots[..], d, s, k) == CopiedDown(m, d, s, n)
        && destroyed == was
    }

    method ForwardRound(d: nat, s: nat, n: nat, k: nat, ghost m: seq<Slot<T>>, ghost was: seq<Slot<T>>)
      requires !UseTrivialMove() && Ready(m, d, s, n, Clears()) && k < n
      requires !Clears() || d > s || Disjoint(d, s, n)
      requires DownTo(m, was, d, s, n, k + 1)
      modifies slots, this`destroyed
      ensures DownTo(m, was, d, s, n, k)
    {
      if Clears() {
        ForwardStep(m, d, s, n, k, true);
      } else {
        MovedOne(slots[..], d + k, s + k);
        StaysLive(slots[..], d + k, s + k, s, n);
      }
      hide Moved, LastFirst, Ready;
      MoveOne(d + k, s + k);
    }

    /** Moves the elements from the first to the last. Where none is destroyed, any direction is allowed. */
    method MoveBackward(d: nat, s: nat, n: nat)
      requires Ready(slots[..], d, s, n, !trivialMove && !trivialDtor)
      requires trivialMove || trivialDtor || n == 0 || d < s || Disjoint(d, s, n)
      modifies slots, this`destroyed
      ensures trivialMove || (trivialCopy && trivialDtor) ==> slots[..] == Moved(old(slots[..]), d, s, n, false)
      ensures trivialDtor && !trivialCopy && !trivialMove ==> slots[..] == CopiedUp(old(slots[..]), d, s, n)
      ensures d <= s || Disjoint(d, s, n) ==>
        slots[..] == Moved(old(slots[..]), d, s, n, !trivialMove && !trivialDtor)
      ensures destroyed == if trivialMove || trivialDtor then old(destroyed)
                           else old(destroyed) + FirstFirst(old(slots[..]), s, n)
    {
      if UseTrivialMove() {
        MemMove(d, s, n);
        return;
      }
      ghost var m, was := slots[..], destroyed;
      NothingMoved(m, d, s, true);
      WhenCopiedUpMoves(m, d, s, n);
      hide Moved, CopiedUp, FirstFirst;
      var k := 0;
      while k < n
        invariant k <= n && UpTo(m, was, d, s, n, k)
      {
        BackwardRound(d, s, n, k, m, was);
        k := k + 1;
      }
      AllCopied(slots[..], d + n, s + n);
    }

    /** Starting from memory `m` and `was`, the first `k` elements have moved. */
    ghost predicate UpTo(m: seq<Slot<T>>, was: seq<Slot<T>>, d: nat, s: nat, n: nat, k: nat)
      requires d + n <= |m| && s + n <= |m| && k <= n
      reads this, slots
    {
      if Clears() then
        && slots[..] == Moved(m, d, s, k, true)
        && destroyed == was + FirstFirst(m, s, k)
      else
        && slots.Length == |m| && AllLive(slots[..], s, n)
        && CopiedUp(slots[..], d + k, s + k, n - k) == CopiedUp(m, d, s, n)
        && destroyed == was
    }

    method BackwardRound(d: nat, s: nat, n: nat, k: nat, ghost m: seq<Slot<T>>, ghost was: seq<Slot<T>>)
      requires !UseTrivialMove() && Ready(m, d, s, n, Clears()) && k < n
      requires !Clears() || d < s || Disjoint(d, s, n)
      requires UpTo(m, was, d, s, n, k)
      modifies slots, this`destroyed
      ensures UpTo(m, was, d, s, n, k + 1)
    {
      if Clears() {
        BackwardStep(m, d, s, n, k, true);
      } else {
        MovedOne(slots[..], d + k, s + k);
        StaysLive(slots[..], d + k, s + k, s, n);
      }
      hide Moved, FirstFirst, Ready;
      MoveOne(d + k, s + k);
    }
  }
}
