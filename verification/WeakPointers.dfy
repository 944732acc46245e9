/** Weak pointers over a heap whose addresses are used again. An object has a weakref record of its own;
    a weak pointer keeps the object's address and the record's, and the record lives as long as the object
    or a weak pointer to it. */
module WeakPointers {

  const NULL := 0

  /** A `wp`: the address of the object and of the weakref record. */
  datatype Wp = Wp(ptr: nat, refs: nat)

  /** What is allocated: for each live object its record; for each live record its weak count, the
      object it was made for, and which object, of all those ever made, that was. */
  datatype Table = Table(
    objects: map<nat, nat>, weak: map<nat, nat>, base: map<nat, nat>, lives: map<nat, nat>, born: nat)

  /** Whether the object that record `r` was made for still lives. */
  predicate IsAlive(t: Table, r: nat) {
    r in t.base && t.base[r] in t.objects && t.objects[t.base[r]] == r
  }

  ghost function Holders(cells: map<nat, Wp>, r: nat): (s: set<nat>) {
    set c | c in cells && cells[c].refs == r
  }

  /** What a cell holds is null, or a live record with the object it was made for; and it is the object
      that the cell's value came from. */
  predicate Holds(t: Table, w: Wp, origin: nat) {
    if w.ptr == NULL then w.refs == NULL && origin == 0
    else
      && w.refs in t.weak && w.refs in t.base && t.base[w.refs] == w.ptr
      && w.refs in t.lives && origin == t.lives[w.refs]
  }

  /** Every record is of another object. */
  ghost predicate Distinct(lives: map<nat, nat>, born: nat) {
    && (forall r | r in lives :: 1 <= lives[r] <= born)
    && (forall r, q | r in lives && q in lives && lives[r] == lives[q] :: r == q)
  }

  /** Objects and records point at each other. */
  ghost predicate Linked(t: Table) {
    && NULL !in t.objects && NULL !in t.weak
    && t.weak.Keys == t.base.Keys == t.lives.Keys
    && (forall a | a in t.objects :: t.objects[a] in t.base && t.base[t.objects[a]] == a)
    && (forall r | r in t.base :: t.base[r] != NULL)
  }

  /** Only records that are needed are kept, `r` perhaps excepted. */
  ghost predicate Needed(t: Table, r: nat) {
    forall q | q in t.weak && q != r :: IsAlive(t, q) || t.weak[q] > 0
  }

  ghost predicate TableOK(t: Table) {
    Linked(t) && Needed(t, NULL) && Distinct(t.lives, t.born)
  }

  ghost predicate CellsOK(t: Table, cells: map<nat, Wp>, origin: map<nat, nat>) {
    forall c | c in cells :: c in origin && Holds(t, cells[c], origin[c])
  }

  ghost predicate CountsOK(t: Table, cells: map<nat, Wp>, extra: nat) {
    forall r | r in t.weak :: t.weak[r] == |Holders(cells, r)| + if r == extra then 1 else 0
  }

  /** The table agrees with the cells, one reference to record `extra` being held in hand. */
  ghost predicate Accounts(t: Table, cells: map<nat, Wp>, origin: map<nat, nat>, extra: nat) {
    TableOK(t) && (extra == NULL || extra in t.weak) && CellsOK(t, cells, origin) && CountsOK(t, cells, extra)
  }

  // ----- the weak count

  function Incremented(t: Table, r: nat): (u: Table)
    requires r in t.weak
  {
    t.(weak := t.weak[r := t.weak[r] + 1])
  }

  function Freed(t: Table, r: nat): (u: Table) {
    t.(weak := t.weak - {r}, base := t.base - {r}, lives := t.lives - {r})
  }

  lemma FreedKeeps(t: Table, r: nat)
    requires Linked(t) && Needed(t, r) && Distinct(t.lives, t.born) && r in t.weak && !IsAlive(t, r)
    ensures TableOK(Freed(t, r))
  {
    FewerRecords(t.lives, t.born, r);
    FreedIsLinked(t, r);
    hide Distinct, Linked;
    forall q | q in Freed(t, r).weak
      ensures IsAlive(Freed(t, r), q) || Freed(t, r).weak[q] > 0
    {
      assert q in t.weak && q != r;
    }
  }

  lemma FreedIsLinked(t: Table, r: nat)
    requires Linked(t) && r in t.weak && !IsAlive(t, r)
    ensures Linked(Freed(t, r))
  {
    var u := Freed(t, r);
    assert u.weak.Keys == u.base.Keys == u.lives.Keys == t.weak.Keys - {r};
    forall a | a in u.objects
      ensures u.objects[a] in u.base && u.base[u.objects[a]] == a
    {
      assert t.objects[a] in t.base && t.base[t.objects[a]] == a;
    }
  }

  lemma FewerRecords(lives: map<nat, nat>, born: nat, r: nat)
    requires Distinct(lives, born)
    ensures Distinct(lives - {r}, born)
  {
  }

  /** A change of one count. */
  lemma RecountKeeps(t: Table, r: nat, n: nat)
    requires TableOK(t) && r in t.weak && (n > 0 || IsAlive(t, r))
    ensures TableOK(t.(weak := t.weak[r := n]))
  {
    var u := t.(weak := t.weak[r := n]);
    assert u.weak.Keys == t.weak.Keys;
    hide Distinct;
    assert Linked(u);
    hide Linked;
    forall q | q in u.weak
      ensures IsAlive(u, q) || u.weak[q] > 0
    {
      assert q in t.weak && IsAlive(u, q) == IsAlive(t, q);
    }
  }

  /** Giving up a reference frees the record with the last one, unless its object lives. */
  function Decremented(t: Table, r: nat): (u: Table)
    requires r in t.weak && t.weak[r] > 0
  {
    if t.weak[r] == 1 && !IsAlive(t, r) then Freed(t, r) else t.(weak := t.weak[r := t.weak[r] - 1])
  }

  function DecrementedIf(t: Table, r: nat): (u: Table) {
    if r in t.weak && t.weak[r] > 0 then Decremented(t, r) else t
  }

  lemma HoldersWithout(cells: map<nat, Wp>, c: nat, r: nat)
    requires c in cells
    ensures |Holders(cells, r)| == |Holders(cells - {c}, r)| + if cells[c].refs == r then 1 else 0
  {
    var before, after := Holders(cells, r), Holders(cells - {c}, r);
    if cells[c].refs == r {
      assert before == after + {c};
    } else {
      assert before == after;
    }
  }

  lemma HoldersWith(cells: map<nat, Wp>, c: nat, w: Wp, r: nat)
    requires c !in cells
    ensures |Holders(cells[c := w], r)| == |Holders(cells, r)| + if w.refs == r then 1 else 0
  {
    HoldersWithout(cells[c := w], c, r);
    assert cells[c := w] - {c} == cells;
  }

  lemma IncKeepsCounts(t: Table, cells: map<nat, Wp>, r: nat)
    requires CountsOK(t, cells, NULL) && r in t.weak && NULL !in t.weak
    ensures CountsOK(Incremented(t, r), cells, r)
  {
    hide Holders;
  }

  lemma IncKeeps(t: Table, cells: map<nat, Wp>, origin: map<nat, nat>, r: nat)
    requires Accounts(t, cells, origin, NULL) && r in t.weak
    ensures Accounts(Incremented(t, r), cells, origin, r)
  {
    NullIsNotCounted(t);
    RecountKeeps(t, r, t.weak[r] + 1);
    IncKeepsCounts(t, cells, r);
    hide TableOK, CountsOK;
    assert CellsOK(Incremented(t, r), cells, origin);
  }

  lemma NullIsNotCounted(t: Table)
    requires TableOK(t)
    ensures NULL !in t.weak
  {
  }

  /** The count of a held record is not zero. */
  lemma HeldIsCounted(t: Table, cells: map<nat, Wp>, origin: map<nat, nat>, extra: nat, c: nat)
    requires Accounts(t, cells, origin, extra) && c in cells && cells[c].ptr != NULL
    ensures cells[c].refs in t.weak && t.weak[cells[c].refs] > 0
  {
    assert c in Holders(cells, cells[c].refs);
  }

  lemma DecKeepsTable(t: Table, r: nat)
    requires TableOK(t) && r in t.weak && t.weak[r] > 0
    ensures TableOK(Decremented(t, r))
  {
    if t.weak[r] == 1 && !IsAlive(t, r) {
      hide Distinct, Linked;
      FreedKeeps(t, r);
    } else {
      hide TableOK;
      RecountKeeps(t, r, t.weak[r] - 1);
    }
  }

  lemma DecKeepsCounts(t: Table, cells: map<nat, Wp>, extra: nat, c: nat)
    requires CountsOK(t, cells, extra) && c in cells
    requires var r := cells[c].refs; r in t.weak && t.weak[r] > 0
    ensures CountsOK(Decremented(t, cells[c].refs), cells - {c}, extra)
  {
    var r := cells[c].refs;
    forall q | q in t.weak
      ensures |Holders(cells, q)| == |Holders(cells - {c}, q)| + if r == q then 1 else 0
    {
      HoldersWithout(cells, c, q);
    }
    hide Holders, IsAlive;
    assert CountsOK(Decremented(t, r), cells - {c}, extra);
  }

  /** A record is freed only when no cell holds it. */
  lemma FreedIsNotHeld(t: Table, cells: map<nat, Wp>, extra: nat, c: nat)
    requires CountsOK(t, cells, extra) && c in cells
    requires var r := cells[c].refs; r in t.weak && t.weak[r] == 1
    ensures forall d | d in cells - {c} :: cells[d].refs != cells[c].refs
    ensures extra != cells[c].refs
  {
    var r := cells[c].refs;
    HoldersWithout(cells, c, r);
    forall d | d in cells - {c}
      ensures cells[d].refs != r
    {
      assert cells[d].refs == r ==> d in Holders(cells - {c}, r);
    }
    assert c in Holders(cells, r);
  }

  lemma DecKeepsCells(t: Table, cells: map<nat, Wp>, origin: map<nat, nat>, r: nat)
    requires CellsOK(t, cells, origin) && r in t.weak && t.weak[r] > 0
    requires t.weak[r] == 1 ==> forall c | c in cells :: cells[c].refs != r
    ensures CellsOK(Decremented(t, r), cells, origin)
  {
    hide IsAlive;
  }

  lemma DecKeeps(t: Table, cells: map<nat, Wp>, origin: map<nat, nat>, extra: nat, c: nat)
    requires Accounts(t, cells, origin, extra) && c in cells && cells[c].ptr != NULL
    requires cells[c].refs in t.weak && t.weak[cells[c].refs] > 0
    ensures Accounts(Decremented(t, cells[c].refs), cells - {c}, origin, extra)
  {
    hide TableOK, CountsOK, CellsOK, IsAlive, Holds;
    var r := cells[c].refs;
    DecKeepsTable(t, r);
    DecKeepsCounts(t, cells, extra, c);
    if t.weak[r] == 1 {
      FreedIsNotHeld(t, cells, extra, c);
    }
    FewerCells(t, cells, origin, c);
    DecKeepsCells(t, cells - {c}, origin, r);
  }

  lemma FewerCells(t: Table, cells: map<nat, Wp>, origin: map<nat, nat>, c: nat)
    requires CellsOK(t, cells, origin)
    ensures CellsOK(t, cells - {c}, origin)
  {
    hide Holds;
  }

  lemma NullDropKeeps(t: Table, cells: map<nat, Wp>, origin: map<nat, nat>, extra: nat, c: nat)
    requires Accounts(t, cells, origin, extra) && c in cells && cells[c].ptr == NULL
    ensures Accounts(t, cells - {c}, origin, extra)
  {
    forall q | q in t.weak
      ensures |Holders(cells, q)| == |Holders(cells - {c}, q)|
    {
      HoldersWithout(cells, c, q);
    }
  }

  lemma WriteKeeps(t: Table, cells: map<nat, Wp>, origin: map<nat, nat>, r: nat, c: nat)
    requires Accounts(t, cells, origin, r) && c !in cells && r in t.weak
    ensures r in t.base && r in t.lives
    ensures Accounts(t, cells[c := Wp(t.base[r], r)], origin[c := t.lives[r]], NULL)
  {
    forall q | q in t.weak
      ensures |Holders(cells[c := Wp(t.base[r], r)], q)| == |Holders(cells, q)| + if r == q then 1 else 0
    {
      HoldersWith(cells, c, Wp(t.base[r], r), q);
    }
  }

  lemma NullKeeps(t: Table, cells: map<nat, Wp>, origin: map<nat, nat>, c: nat)
    requires Accounts(t, cells, origin, NULL) && c !in cells
    ensures Accounts(t, cells[c := Wp(NULL, NULL)], origin[c := 0], NULL)
  {
    forall q | q in t.weak
      ensures |Holders(cells[c := Wp(NULL, NULL)], q)| == |Holders(cells, q)|
    {
      HoldersWith(cells, c, Wp(NULL, NULL), q);
    }
  }

  // ----- objects

  /** A new object, at any free address, with a new record, at any free address. */
  function WithObject(t: Table, a: nat, r: nat): (u: Table) {
    Table(t.objects[a := r], t.weak[r := 0], t.base[r := a], t.lives[r := t.born + 1], t.born + 1)
  }

  /** The end of an object: its record goes with it unless a weak pointer still needs it. */
  function WithoutObject(t: Table, a: nat): (u: Table)
    requires a in t.objects && t.objects[a] in t.weak
  {
    var r, objects := t.objects[a], t.objects - {a};
    if t.weak[r] > 0 then t.(objects := objects) else Freed(t.(objects := objects), r)
  }

  lemma MoreRecords(lives: map<nat, nat>, born: nat, r: nat)
    requires Distinct(lives, born)
    ensures Distinct(lives[r := born + 1], born + 1)
  {
  }

  lemma NewIsLinked(t: Table, a: nat, r: nat)
    requires Linked(t) && a != NULL && a !in t.objects && r != NULL && r !in t.weak
    ensures Linked(WithObject(t, a, r))
  {
    var u := WithObject(t, a, r);
    assert u.weak.Keys == u.base.Keys == u.lives.Keys == t.weak.Keys + {r};
    forall b | b in u.objects
      ensures u.objects[b] in u.base && u.base[u.objects[b]] == b
    {
      if b != a {
        assert t.objects[b] in t.base && t.base[t.objects[b]] == b;
      }
    }
  }

  lemma NewIsNeeded(t: Table, a: nat, r: nat)
    requires Linked(t) && Needed(t, NULL) && a != NULL && a !in t.objects && r != NULL && r !in t.weak
    ensures Needed(WithObject(t, a, r), NULL)
  {
    var u := WithObject(t, a, r);
    forall q | q in u.weak
      ensures IsAlive(u, q) || u.weak[q] > 0
    {
      if q != r {
        assert q in t.base && (IsAlive(t, q) || t.weak[q] > 0);
      }
    }
  }

  lemma CreateKeepsTable(t: Table, a: nat, r: nat)
    requires TableOK(t) && a != NULL && a !in t.objects && r != NULL && r !in t.weak
    ensures TableOK(WithObject(t, a, r))
  {
    hide Linked, Needed, Distinct;
    NullIsNotCounted(t);
    NewIsLinked(t, a, r);
    MoreRecords(t.lives, t.born, r);
    NewIsNeeded(t, a, r);
  }

  lemma CreateKeepsCounts(t: Table, cells: map<nat, Wp>, origin: map<nat, nat>, a: nat, r: nat)
    requires CountsOK(t, cells, NULL) && CellsOK(t, cells, origin) && r != NULL && r !in t.weak
    ensures CountsOK(WithObject(t, a, r), cells, NULL)
  {
    forall c | c in cells
      ensures cells[c].refs != r
    {
      assert Holds(t, cells[c], origin[c]);
    }
    assert Holders(cells, r) == {};
  }

  lemma CreateKeeps(t: Table, cells: map<nat, Wp>, origin: map<nat, nat>, a: nat, r: nat)
    requires Accounts(t, cells, origin, NULL) && a != NULL && a !in t.objects && r != NULL && r !in t.weak
    ensures Accounts(WithObject(t, a, r), cells, origin, NULL)
  {
    hide TableOK, CountsOK;
    CreateKeepsTable(t, a, r);
    CreateKeepsCounts(t, cells, origin, a, r);
    assert CellsOK(WithObject(t, a, r), cells, origin);
  }

  lemma GoneIsLinked(t: Table, a: nat)
    requires Linked(t) && a in t.objects
    ensures Linked(t.(objects := t.objects - {a}))
  {
  }

  lemma DestroyKeepsTable(t: Table, a: nat)
    requires TableOK(t) && a in t.objects && t.objects[a] in t.weak
    ensures TableOK(WithoutObject(t, a))
  {
    var r, u := t.objects[a], t.(objects := t.objects - {a});
    GoneIsLinked(t, a);
    forall q | q in t.weak && q != r
      ensures IsAlive(u, q) == IsAlive(t, q)
    {
      assert q in t.base;
    }
    assert !IsAlive(u, r) by {
      assert t.base[r] == a;
    }
    hide Linked, Distinct, IsAlive;
    assert Needed(u, r);
    if t.weak[r] == 0 {
      FreedKeeps(u, r);
    }
  }

  lemma DestroyKeepsCells(t: Table, cells: map<nat, Wp>, origin: map<nat, nat>, a: nat)
    requires CellsOK(t, cells, origin) && CountsOK(t, cells, NULL) && a in t.objects && t.objects[a] in t.weak
    requires NULL !in t.weak
    ensures CellsOK(WithoutObject(t, a), cells, origin)
  {
    var r := t.objects[a];
    if t.weak[r] == 0 {
      forall c | c in cells
        ensures cells[c].refs != r
      {
        assert cells[c].refs == r ==> c in Holders(cells, r);
      }
    }
    hide IsAlive, Holders;
  }

  lemma DestroyKeeps(t: Table, cells: map<nat, Wp>, origin: map<nat, nat>, a: nat)
    requires Accounts(t, cells, origin, NULL) && a in t.objects
    ensures t.objects[a] in t.weak
    ensures Accounts(WithoutObject(t, a), cells, origin, NULL)
  {
    NullIsNotCounted(t);
    RecordIsCounted(t, a);
    hide TableOK, CellsOK;
    DestroyKeepsTable(t, a);
    DestroyKeepsCells(t, cells, origin, a);
    assert CountsOK(WithoutObject(t, a), cells, NULL);
  }

  lemma RecordIsCounted(t: Table, a: nat)
    requires TableOK(t) && a in t.objects
    ensures t.objects[a] in t.weak && t.objects[a] in t.base && t.base[t.objects[a]] == a
    ensures t.objects[a] != NULL && a != NULL
  {
  }

  /** A weak pointer just made from the live object at `a`, and the object it comes from. */
  function Pointing(t: Table, a: nat): (w: Wp) {
    if a in t.objects then Wp(a, t.objects[a]) else Wp(NULL, NULL)
  }

  function OriginOf(t: Table, a: nat): (o: nat) {
    if a in t.objects && t.objects[a] in t.lives then t.lives[t.objects[a]] else 0
  }

  lemma HeldValue(t: Table, cells: map<nat, Wp>, origin: map<nat, nat>, extra: nat, c: nat)
    requires Accounts(t, cells, origin, extra) && c in cells
    ensures c in origin && Holds(t, cells[c], origin[c])
  {
  }

  /** A record that is still there is still of the same object. */
  lemma StillHolds(t: Table, u: Table, w: Wp, from: nat)
    requires Holds(t, w, from) && w.ptr != NULL && TableOK(u) && w.refs in u.weak
    requires OneLess(t, u)
    ensures Holds(u, w, from)
  {
  }

  ghost predicate OneLess(t: Table, u: Table) {
    u == t || exists r :: u == DecrementedIf(t, r)
  }

  lemma ReplaceKeeps(t: Table, u: Table, cells: map<nat, Wp>, origin: map<nat, nat>, c: nat, w: Wp, from: nat)
    requires Accounts(u, cells - {c}, origin, w.refs) && c in cells && Holds(t, w, from) && OneLess(t, u)
    requires NULL !in t.weak
    ensures Accounts(u, cells[c := w], origin[c := from], NULL)
  {
    hide TableOK, CellsOK, CountsOK;
    if w.ptr == NULL {
      NullKeeps(u, cells - {c}, origin, c);
    } else {
      NullIsNotCounted(u);
      StillHolds(t, u, w, from);
      WriteKeeps(u, cells - {c}, origin, w.refs, c);
    }
    assert (cells - {c})[c := w] == cells[c := w];
  }

  // ----- the program's weak pointers

  class Heap {
    var table: Table
    var cells: map<nat, Wp>
    /** Which object, of all those ever made, each weak pointer's value came from; 0 for null. */
    ghost var origin: map<nat, nat>

    ghost predicate Valid()
      reads this
    {
      Accounts(table, cells, origin, NULL)
    }

    constructor ()
      ensures Valid() && cells == map[] && table == Table(map[], map[], map[], map[], 0)
    {
      table := Table(map[], map[], map[], map[], 0);
      cells, origin := map[], map[];
    }

    method Create(a: nat, r: nat)
      requires Valid() && a != NULL && a !in table.objects && r != NULL && r !in table.weak
      modifies this`table
      ensures Valid() && table == WithObject(old(table), a, r)
    {
      CreateKeeps(table, cells, origin, a, r);
      table := WithObject(table, a, r);
    }

    method Destroy(a: nat)
      requires Valid() && a in table.objects
      modifies this`table
      ensures Valid() && old(table).objects[a] in old(table).weak && table == WithoutObject(old(table), a)
    {
      DestroyKeeps(table, cells, origin, a);
      hide TableOK, CellsOK, CountsOK, WithoutObject;
      table := WithoutObject(table, a);
    }

    /** `createWeak`, or `incWeak` on a record known to live. */
    method IncWeak(r: nat)
      requires Valid() && r in table.weak
      modifies this`table
      ensures Accounts(table, cells, origin, r) && table == Incremented(old(table), r)
    {
      IncKeeps(table, cells, origin, r);
      table := Incremented(table, r);
    }

    /** What every assignment does with the value about to be overwritten. */
    method DecWeak(c: nat, ghost extra: nat)
      requires Accounts(table, cells, origin, extra) && c in cells
      modifies this`table
      ensures Accounts(table, cells - {c}, origin, extra)
      ensures OneLess(old(table), table) && table.objects == old(table).objects && table.born == old(table).born
    {
      if cells[c].ptr != NULL {
        HeldIsCounted(table, cells, origin, extra, c);
        DecKeeps(table, cells, origin, extra, c);
        assert Decremented(table, cells[c].refs) == DecrementedIf(table, cells[c].refs);
        table := Decremented(table, cells[c].refs);
      } else {
        NullDropKeeps(table, cells, origin, extra, c);
      }
    }

    /** `wp(T*)` and `wp(const sp<T>&)`: a new weak pointer to the live object at `a`, or to none. */
    method ConstructFromObject(c: nat, a: nat)
      requires Valid() && c !in cells && (a == NULL || a in table.objects)
      modifies this
      ensures Valid() && table.objects == old(table.objects) && table.born == old(table.born)
      ensures table.weak.Keys == old(table.weak.Keys)
      ensures cells == old(cells)[c := if a == NULL then Wp(NULL, NULL) else Wp(a, old(table).objects[a])]
      ensures origin == old(origin)[c := OriginOf(old(table), a)]
    {
      if a == NULL {
        NullKeeps(table, cells, origin, c);
        SetNull(c);
      } else {
        RecordIsCounted(table, a);
        var refs := table.objects[a];
        IncWeak(refs);
        WriteKeeps(table, cells, origin, refs, c);
        Set(c, Wp(a, refs), table.lives[refs]);
      }
    }

    method ConstructCopy(c: nat, other: nat)
      requires Valid() && c !in cells && other in cells
      modifies this
      ensures Valid() && table.objects == old(table.objects) && table.born == old(table.born)
      ensures cells == old(cells)[c := old(cells[other])] && origin == old(origin)[c := old(origin[other])]
    {
      var w := cells[other];
      HeldValue(table, cells, origin, NULL, other);
      if w.ptr == NULL {
        NullKeeps(table, cells, origin, c);
        SetNull(c);
      } else {
        IncWeak(w.refs);
        WriteKeeps(table, cells, origin, w.refs, c);
        Set(c, w, table.lives[w.refs]);
      }
    }

    /** Assignment from a weak pointer, perhaps the same one: the new reference is taken first. */
    method Assign(c: nat, other: nat)
      requires Valid() && c in cells && other in cells
      modifies this
      ensures Valid() && table.objects == old(table.objects) && table.born == old(table.born)
      ensures cells == old(cells)[c := old(cells[other])] && origin == old(origin)[c := old(origin[other])]
    {
      var w := cells[other];
      HeldValue(table, cells, origin, NULL, other);
      if w.ptr != NULL {
        IncWeak(w.refs);
      }
      Replace(c, w, origin[other]);
    }

    /** Assignment from a strong pointer, or from a plain pointer to a live object. */
    method AssignObject(c: nat, a: nat)
      requires Valid() && c in cells && (a == NULL || a in table.objects)
      modifies this
      ensures Valid() && table.objects == old(table.objects) && table.born == old(table.born)
      ensures cells == old(cells)[c := if a == NULL then Wp(NULL, NULL) else Wp(a, old(table).objects[a])]
      ensures origin == old(origin)[c := OriginOf(old(table), a)]
    {
      var w := Pointing(table, a);
      ghost var from := OriginOf(table, a);
      if a != NULL {
        RecordIsCounted(table, a);
        IncWeak(w.refs);
      }
      Replace(c, w, from);
    }

    method Clear(c: nat)
      requires Valid() && c in cells
      modifies this
      ensures Valid() && table.objects == old(table.objects) && table.born == old(table.born)
      ensures cells == old(cells)[c := Wp(NULL, NULL)] && origin == old(origin)[c := 0]
    {
      HeldValue(table, cells, origin, NULL, c);
      if cells[c].ptr != NULL {
        Replace(c, Wp(NULL, NULL), 0);
      }
    }

    /** The destructor. */
    method Drop(c: nat)
      requires Valid() && c in cells
      modifies this
      ensures Valid() && table.objects == old(table.objects) && table.born == old(table.born)
      ensures cells == old(cells) - {c} && origin == old(origin)
    {
      DecWeak(c, NULL);
      cells := cells - {c};
    }

    /** Gives up what the cell points to and stores a value for which a reference is held in hand. */
    method Replace(c: nat, w: Wp, ghost from: nat)
      requires Accounts(table, cells, origin, w.refs) && c in cells && Holds(table, w, from)
      modifies this
      ensures Valid() && table.objects == old(table.objects) && table.born == old(table.born)
      ensures cells == old(cells)[c := w] && origin == old(origin)[c := from]
    {
      NullIsNotCounted(table);
      hide TableOK, CellsOK, CountsOK, Holds, OneLess;
      DecWeak(c, w.refs);
      ReplaceKeeps(old(table), table, cells, origin, c, w, from);
      Set(c, w, from);
    }

    method Set(c: nat, w: Wp, ghost from: nat)
      requires Accounts(table, cells[c := w], origin[c := from], NULL)
      modifies this`cells, this`origin
      ensures Valid() && cells == old(cells)[c := w] && origin == old(origin)[c := from]
    {
      cells, origin := cells[c := w], origin[c := from];
    }

    method SetNull(c: nat)
      requires Accounts(table, cells[c := Wp(NULL, NULL)], origin[c := 0], NULL)
      modifies this`cells, this`origin
      ensures Valid() && cells == old(cells)[c := Wp(NULL, NULL)] && origin == old(origin)[c := 0]
    {
      Set(c, Wp(NULL, NULL), 0);
    }

    // ----- comparisons

    predicate Equal(c: nat, d: nat)
      requires c in cells && d in cells
      reads this
    {
      cells[c].refs == cells[d].refs
    }

    predicate Less(c: nat, d: nat)
      requires c in cells && d in cells
      reads this
    {
      if cells[c].ptr == cells[d].ptr then cells[c].refs < cells[d].refs else cells[c].ptr < cells[d].ptr
    }

    predicate Greater(c: nat, d: nat)
      requires c in cells && d in cells
      reads this
    {
      if cells[c].ptr == cells[d].ptr then cells[c].refs > cells[d].refs else cells[c].ptr > cells[d].ptr
    }

    predicate NotEqual(c: nat, d: nat)
      requires c in cells && d in cells
      reads this
    {
      !Equal(c, d)
    }

    predicate LessOrEqual(c: nat, d: nat)
      requires c in cells && d in cells
      reads this
    {
      !Greater(c, d)
    }

    predicate GreaterOrEqual(c: nat, d: nat)
      requires c in cells && d in cells
      reads this
    {
      !Less(c, d)
    }

    /** Comparison with a strong pointer to the live object at `a`, or to none. */
    predicate EqualStrong(c: nat, a: nat)
      requires c in cells && (a == NULL || a in table.objects)
      reads this
    {
      if a == NULL then cells[c].ptr == NULL else cells[c].refs == table.objects[a]
    }
  }

  /** The invariants the implementation notes: a weak pointer is null, or has the record of the live
      object at its address, or that object is gone and its record is still there. */
  lemma ImplementationInvariants(h: Heap, c: nat)
    requires h.Valid() && c in h.cells
    ensures var w, t := h.cells[c], h.table;
      || (w.ptr == NULL && w.refs == NULL)
      || (w.ptr in t.objects && t.objects[w.ptr] == w.refs)
      || (w.refs in t.weak && t.weak[w.refs] > 0 && t.base[w.refs] == w.ptr && !IsAlive(t, w.refs))
  {
    hide Distinct;
    assert Holds(h.table, h.cells[c], h.origin[c]);
  }

  lemma OriginOfRecord(t: Table, w: Wp, v: Wp, o: nat, p: nat)
    requires TableOK(t) && Holds(t, w, o) && Holds(t, v, p)
    ensures w.refs == v.refs <==> o == p
    ensures w.refs == v.refs ==> w.ptr == v.ptr
  {
  }

  /** Weak pointers are equal exactly when both are null or both came from the same object, even one long
      gone whose address is used by another. */
  lemma EqualMeansSameObject(h: Heap, c: nat, d: nat)
    requires h.Valid() && c in h.cells && d in h.cells
    ensures h.Equal(c, d) <==> h.origin[c] == h.origin[d]
    ensures h.Equal(c, d) ==> h.cells[c] == h.cells[d]
    ensures h.origin[c] == 0 <==> h.cells[c] == Wp(NULL, NULL)
  {
    hide TableOK, CountsOK;
    HeldValue(h.table, h.cells, h.origin, NULL, c);
    HeldValue(h.table, h.cells, h.origin, NULL, d);
    OriginOfRecord(h.table, h.cells[c], h.cells[d], h.origin[c], h.origin[d]);
    OriginIsPositive(h.table, h.cells[c], h.origin[c]);
  }

  lemma OriginIsPositive(t: Table, w: Wp, o: nat)
    requires TableOK(t) && Holds(t, w, o)
    ensures o == 0 <==> w == Wp(NULL, NULL)
  {
  }

  /** Exactly one of less, equal and greater holds, and the other operators agree with them. */
  lemma ExactlyOneHolds(h: Heap, c: nat, d: nat)
    requires h.Valid() && c in h.cells && d in h.cells
    ensures h.Equal(c, d) ==> !h.Less(c, d) && !h.Greater(c, d)
    ensures !h.Equal(c, d) ==> (h.Less(c, d) <==> !h.Greater(c, d))
    ensures h.Less(c, d) <==> h.Greater(d, c)
    ensures h.NotEqual(c, d) <==> h.Less(c, d) || h.Greater(c, d)
    ensures h.LessOrEqual(c, d) <==> h.Less(c, d) || h.Equal(c, d)
    ensures h.GreaterOrEqual(c, d) <==> h.Greater(c, d) || h.Equal(c, d)
  {
    EqualMeansSameObject(h, c, d);
  }

  /** The order is transitive and antisymmetric. */
  lemma OrderIsTransitive(h: Heap, c: nat, d: nat, e: nat)
    requires h.Valid() && c in h.cells && d in h.cells && e in h.cells
    requires h.LessOrEqual(c, d) && h.LessOrEqual(d, e)
    ensures h.LessOrEqual(c, e)
    ensures h.Less(c, d) || h.Less(d, e) ==> h.Less(c, e)
    ensures h.LessOrEqual(c, e) && h.LessOrEqual(e, c) ==> h.Equal(c, e)
  {
    EqualMeansSameObject(h, c, e);
    EqualMeansSameObject(h, c, d);
    EqualMeansSameObject(h, d, e);
    hide Accounts;
  }

  /** Whatever they point at, weak pointers are ordered by the addresses of the objects, and those that came from
      different objects at one address by the addresses of the records. */
  lemma OrderIsByAddress(h: Heap, c: nat, d: nat)
    requires h.Valid() && c in h.cells && d in h.cells
    ensures h.cells[c].ptr < h.cells[d].ptr ==> h.Less(c, d) && !h.Less(d, c) && !h.Equal(c, d)
    ensures h.cells[c].ptr == h.cells[d].ptr ==>
      (h.Less(c, d) <==> h.cells[c].refs < h.cells[d].refs) && (h.Equal(c, d) <==> h.origin[c] == h.origin[d])
  {
    EqualMeansSameObject(h, c, d);
    HeldValue(h.table, h.cells, h.origin, NULL, c);
    HeldValue(h.table, h.cells, h.origin, NULL, d);
    OriginOfRecord(h.table, h.cells[c], h.cells[d], h.origin[c], h.origin[d]);
    hide CountsOK, CellsOK, TableOK;
  }

  /** On weak pointers to live objects, the order is that of the objects' addresses. */
  lemma OrderOnLiveObjects(h: Heap, c: nat, d: nat)
    requires h.Valid() && c in h.cells && d in h.cells
    requires IsAlive(h.table, h.cells[c].refs) && IsAlive(h.table, h.cells[d].refs)
    ensures h.Less(c, d) <==> h.cells[c].ptr < h.cells[d].ptr
    ensures h.Equal(c, d) <==> h.cells[c].ptr == h.cells[d].ptr
  {
    hide CountsOK, Distinct;
    HeldValue(h.table, h.cells, h.origin, NULL, c);
    HeldValue(h.table, h.cells, h.origin, NULL, d);
  }

  /** A weak pointer equals a strong one exactly when it came from the very object that is there now. */
  lemma EqualStrongMeansSameObject(h: Heap, c: nat, a: nat)
    requires h.Valid() && c in h.cells && (a == NULL || a in h.table.objects)
    ensures h.EqualStrong(c, a) <==> h.origin[c] == OriginOf(h.table, a)
  {
    hide CountsOK;
    HeldValue(h.table, h.cells, h.origin, NULL, c);
    OriginIsPositive(h.table, h.cells[c], h.origin[c]);
    if a != NULL {
      RecordIsCounted(h.table, a);
      var refs := h.table.objects[a];
      NewlyHolds(h.table, a);
      OriginOfRecord(h.table, h.cells[c], Wp(a, refs), h.origin[c], h.table.lives[refs]);
    }
  }

  lemma NewlyHolds(t: Table, a: nat)
    requires TableOK(t) && a in t.objects
    ensures t.objects[a] in t.lives && Holds(t, Wp(a, t.objects[a]), t.lives[t.objects[a]])
  {
  }

  /** Comparing addresses alone is not enough: a second object at the address of the first. */
  method AddressUsedAgain(a: nat, r: nat, q: nat) returns (h: Heap)
    requires a != NULL && r != NULL && q != NULL && r != q
    ensures h.Valid() && h.cells.Keys == {1, 2} && fresh(h)
    ensures h.cells[1].ptr == h.cells[2].ptr == a && !h.Equal(1, 2)
    ensures a in h.table.objects && h.EqualStrong(2, a) && !h.EqualStrong(1, a)
  {
    hide Accounts;
    h := new Heap();
    h.Create(a, r);
    h.ConstructFromObject(1, a);
    assert h.cells[1] == Wp(a, r);
    h.Destroy(a);
    assert h.table.weak.Keys <= {r} && a !in h.table.objects;
    h.Create(a, q);
    h.ConstructFromObject(2, a);
    assert h.cells[2] == Wp(a, q) && h.table.objects[a] == q;
  }
}
