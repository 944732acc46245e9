/** The parcel object: a data buffer and a cursor, written and read step by step. Every operation is
    tied to the wire format, from which its meaning follows. */
module Parcels {
  import opened ByteSequences
  import opened ParcelFormat

  /** `bytes` laid over `data` at `pos`, growing it when they reach past its end. */
  function Spliced(data: seq<Byte>, pos: nat, bytes: seq<Byte>): (s: seq<Byte>)
    requires pos <= |data|
    ensures At(bytes, s, pos)
    ensures s[..pos] == data[..pos]
  {
    data[..pos] + bytes + if pos + |bytes| < |data| then data[pos + |bytes|..] else []
  }

  lemma SplicedTwice(data: seq<Byte>, pos: nat, a: seq<Byte>, b: seq<Byte>)
    requires pos <= |data|
    ensures Spliced(Spliced(data, pos, a), pos + |a|, b) == Spliced(data, pos, a + b)
  {
    var s, t := Spliced(Spliced(data, pos, a), pos + |a|, b), Spliced(data, pos, a + b);
    assert |s| == |t|;
    forall i | 0 <= i < |s|
      ensures s[i] == t[i]
    {
    }
  }

  lemma SplicedNothing(data: seq<Byte>, pos: nat)
    requires pos <= |data|
    ensures Spliced(data, pos, []) == data
  {
  }

  /** Writing `c` over the middle of what was written before. */
  lemma SplicedWithin(data: seq<Byte>, pos: nat, was: seq<Byte>, a: seq<Byte>, c: seq<Byte>, d: seq<Byte>)
    requires pos <= |data| && |was| == |a| + |c| + |d| && was[..|a|] == a && was[|a| + |c|..] == d
    ensures pos + |a| + |c| <= |Spliced(data, pos, was)|
    ensures Spliced(Spliced(data, pos, was), pos + |a|, c) == Spliced(data, pos, a + c + d)
  {
    var s, t := Spliced(Spliced(data, pos, was), pos + |a|, c), Spliced(data, pos, a + c + d);
    assert |s| == |t|;
    forall i | 0 <= i < |s|
      ensures s[i] == t[i]
    {
    }
  }

  lemma ZerosSplit(a: nat, b: nat)
    ensures Zeros(a + b) == Zeros(a) + Zeros(b)
  {
  }

  /** The space for `vs` once the first `k` are filled in. */
  function Filled(p: Prim, vs: seq<Val>, k: nat): (s: seq<Byte>)
    requires AllNumbers(vs) && k <= |vs|
  {
    Flat(p, vs, k) + Zeros(4 * (|vs| - k))
  }

  lemma FilledNone(p: Prim, vs: seq<Val>)
    requires AllNumbers(vs)
    ensures Filled(p, vs, 0) == Zeros(4 * |vs|)
  {
  }

  lemma TooManyWords(p: Prim, vs: seq<Val>)
    requires AllNumbers(vs) && !IsPacked(Primitive(p)) && 4 * |vs| > INT32_MAX
    ensures Block(Flat(p, vs, |vs|)) == Written([], BAD_VALUE)
  {
    FlatLength(p, vs, |vs|);
  }

  lemma WordsLength(p: Prim, vs: seq<Val>, k: nat)
    requires AllNumbers(vs) && !IsPacked(Primitive(p)) && k <= |vs|
    ensures |Flat(p, vs, k)| == 4 * k
    ensures k < |vs| ==> Flat(p, vs, k + 1) == Flat(p, vs, k) + PrimBytes(p, vs[k].n)
  {
    FlatLength(p, vs, k);
  }

  lemma NoPadding(len: nat)
    requires len % 4 == 0
    ensures Padding(len) == Zeros(0) == []
  {
  }

  lemma FilledAll(p: Prim, vs: seq<Val>)
    requires AllNumbers(vs) && !IsPacked(Primitive(p)) && 4 * |vs| <= INT32_MAX
    ensures Block(Flat(p, vs, |vs|)) == Written(Filled(p, vs, |vs|), OK)
    ensures |Filled(p, vs, |vs|)| == 4 * |vs|
  {
    WordsLength(p, vs, |vs|);
    NoPadding(4 * |vs|);
    hide Flat, IsPacked, AllNumbers, Zeros, Padding;
  }

  lemma FilledParts(p: Prim, vs: seq<Val>, k: nat) returns (flat: seq<Byte>, word: seq<Byte>, n: nat)
    requires AllNumbers(vs) && !IsPacked(Primitive(p)) && k < |vs|
    ensures |flat| == 4 * k && |word| == 4 && word == PrimBytes(p, vs[k].n)
    ensures var was := Filled(p, vs, k);
      |was| == 4 * k + 4 + |Zeros(n)| && was[..4 * k] == flat && was[4 * k + 4..] == Zeros(n)
    ensures Filled(p, vs, k + 1) == flat + word + Zeros(n)
  {
    flat, word, n := Flat(p, vs, k), PrimBytes(p, vs[k].n), 4 * (|vs| - (k + 1));
    WordsLength(p, vs, k);
    ZerosSplit(4, n);
    hide Flat, PrimBytes, Zeros;
  }

  lemma FillOneMore(p: Prim, vs: seq<Val>, k: nat, data: seq<Byte>, pos: nat)
    requires AllNumbers(vs) && !IsPacked(Primitive(p)) && k < |vs| && pos <= |data|
    ensures pos + 4 * (k + 1) <= |Spliced(data, pos, Filled(p, vs, k))|
    ensures Spliced(Spliced(data, pos, Filled(p, vs, k)), pos + 4 * k, PrimBytes(p, vs[k].n))
         == Spliced(data, pos, Filled(p, vs, k + 1))
  {
    hide Filled, Flat, PrimBytes, Zeros, Spliced;
    var flat, word, n := FilledParts(p, vs, k);
    hide IsPacked, AllNumbers;
    SplicedWithin(data, pos, Filled(p, vs, k), flat, word, Zeros(n));
  }

  lemma NoElems(elem: Ty, vs: seq<Val>, data: seq<Byte>, pos: nat)
    requires pos <= |data| && forall e | e in vs :: HasType(elem, e)
    ensures EncodeElems(elem, vs, 0) == Written([], OK) && Spliced(data, pos, []) == data
  {
    SplicedNothing(data, pos);
  }

  lemma NoFields(tys: seq<Ty>, vs: seq<Val>, data: seq<Byte>, pos: nat)
    requires pos <= |data| && |tys| == |vs| && forall i | 0 <= i < |tys| :: HasType(tys[i], vs[i])
    ensures EncodeFields(tys, vs, 0) == Written([], OK) && Spliced(data, pos, []) == data
  {
    SplicedNothing(data, pos);
  }

  lemma ElemStep(elem: Ty, vs: seq<Val>, k: nat, data: seq<Byte>, pos: nat)
    requires k < |vs| && (forall e | e in vs :: HasType(elem, e)) && EncodeElems(elem, vs, k).status == OK
    requires pos <= |data|
    ensures var done, last := EncodeElems(elem, vs, k).bytes, Encode(elem, vs[k]);
      && EncodeElems(elem, vs, k + 1) == Written(done + last.bytes, last.status)
      && Spliced(Spliced(data, pos, done), pos + |done|, last.bytes) == Spliced(data, pos, done + last.bytes)
  {
    hide Encode, HasType, Spliced;
    SplicedTwice(data, pos, EncodeElems(elem, vs, k).bytes, Encode(elem, vs[k]).bytes);
  }

  lemma FieldStep(tys: seq<Ty>, vs: seq<Val>, k: nat, data: seq<Byte>, pos: nat)
    requires k < |tys| == |vs| && forall i | 0 <= i < |tys| :: HasType(tys[i], vs[i])
    requires EncodeFields(tys, vs, k).status == OK && pos <= |data|
    ensures var done, last := EncodeFields(tys, vs, k).bytes, Encode(tys[k], vs[k]);
      && EncodeFields(tys, vs, k + 1) == Written(done + last.bytes, last.status)
      && Spliced(Spliced(data, pos, done), pos + |done|, last.bytes) == Spliced(data, pos, done + last.bytes)
  {
    hide Encode, HasType, Spliced;
    SplicedTwice(data, pos, EncodeFields(tys, vs, k).bytes, Encode(tys[k], vs[k]).bytes);
  }

  lemma {:induction false} DecodeElemsStop(elem: Ty, buf: seq<Byte>, pos: nat, k: nat, n: nat)
    requires k <= n && pos <= |buf| && DecodeElems(elem, buf, pos, k).status != OK
    ensures DecodeElems(elem, buf, pos, n) == DecodeElems(elem, buf, pos, k)
    decreases n
  {
    if k < n {
      DecodeElemsStop(elem, buf, pos, k, n - 1);
    }
  }

  lemma {:induction false} DecodeFieldsStop(tys: seq<Ty>, buf: seq<Byte>, pos: nat, k: nat, n: nat)
    requires k <= n <= |tys| && pos <= |buf| && DecodeFields(tys, buf, pos, k).status != OK
    ensures DecodeFields(tys, buf, pos, n) == DecodeFields(tys, buf, pos, k)
    decreases n
  {
    if k < n {
      DecodeFieldsStop(tys, buf, pos, k, n - 1);
    }
  }

  /** What a vector writes after its size. */
  function Body(elem: Ty, vs: seq<Val>): (w: Written)
    requires forall e | e in vs :: HasType(elem, e)
  {
    if elem.Primitive? then
      TypedNumbers(elem.prim, vs);
      Block(Flat(elem.prim, vs, |vs|))
    else EncodeElems(elem, vs, |vs|)
  }

  ghost function ElementsUpTo(p: Prim, buf: seq<Byte>, start: nat, size: nat, k: nat): (vs: seq<Val>)
    requires start + ElementWidth(p) * size <= |buf| && k <= size
  {
    Elements(p, buf, start, size)[..k]
  }

  lemma ElementsGrow(p: Prim, buf: seq<Byte>, start: nat, size: nat, k: nat)
    requires start + ElementWidth(p) * size <= |buf| && k < size
    ensures start + ElementWidth(p) * (k + 1) <= |buf|
    ensures ElementsUpTo(p, buf, start, size, k + 1)
         == ElementsUpTo(p, buf, start, size, k) + [Scalar(ElementAt(p, buf, start, k))]
  {
    ElementFits(ElementWidth(p), k, size);
  }

  lemma ElementsAll(p: Prim, buf: seq<Byte>, start: nat, size: nat)
    requires start + ElementWidth(p) * size <= |buf|
    ensures ElementsUpTo(p, buf, start, size, size) == Elements(p, buf, start, size)
  {
  }

  lemma VectorIsBody(elem: Ty, vs: seq<Val>)
    requires HasType(Vector(elem), Items(vs))
    ensures var w := Encode(Vector(elem), Items(vs));
      if |vs| > INT32_MAX then w == Written([], BAD_VALUE)
      else w == Written(Int32Bytes(|vs|) + Body(elem, vs).bytes, Body(elem, vs).status)
  {
    hide EncodeElems, Flat, Block, Int32Bytes;
  }

  function WordAt(buf: seq<Byte>, pos: nat): (n: int) {
    if pos + 4 <= |buf| then Narrowed(Int32, Number(Piece(buf, pos, 4))) else 0
  }

  function AfterWord(buf: seq<Byte>, pos: nat): (p: nat)
    ensures pos <= p && (pos <= |buf| ==> p <= |buf|)
  {
    if pos + 4 <= |buf| then pos + 4 else pos
  }

  /** Where the cursor is once a string of bytes has been read: its length, then that many bytes and a
      terminator, padded. */
  function AfterString8(buf: seq<Byte>, pos: nat): (p: nat)
    requires pos <= |buf|
    ensures pos <= p <= |buf|
  {
    var size, start := WordAt(buf, pos), AfterWord(buf, pos);
    if 0 <= size < INT32_MAX && CanTake(size + 1, buf, start) then start + Padded(size + 1) else start
  }

  class Parcel {
    var data: seq<Byte>
    var pos: nat

    ghost predicate Valid()
      reads this
    {
      pos <= |data|
    }

    constructor ()
      ensures Valid() && data == [] && pos == 0
    {
      data, pos := [], 0;
    }

    method SetDataPosition(newPos: nat)
      modifies this`pos
      ensures pos == newPos
    {
      pos := newPos;
    }

    function DataAvail(): (n: nat)
      requires Valid()
      reads this
    {
      |data| - pos
    }

    /** The state after `bytes` have been written at the cursor of a parcel that held `was` at `from`. */
    ghost predicate Holds(was: seq<Byte>, start: nat, bytes: seq<Byte>)
      reads this
      ensures Holds(was, start, bytes) ==> Valid()
    {
      start <= |was| && data == Spliced(was, start, bytes) && pos == start + |bytes|
    }

    // ----- primitives

    method WriteBytes(bytes: seq<Byte>)
      requires Valid()
      modifies this
      ensures Holds(old(data), old(pos), bytes)
    {
      data := Spliced(data, pos, bytes);
      pos := pos + |bytes|;
    }

    method WritePrim(p: Prim, n: int)
      requires Valid()
      modifies this
      ensures Holds(old(data), old(pos), PrimBytes(p, n))
    {
      WriteBytes(PrimBytes(p, n));
    }

    /** Copies a block of memory, padded to whole words. */
    method Write(raw: seq<Byte>) returns (status: Status)
      requires Valid()
      modifies this
      ensures status == Block(raw).status && Holds(old(data), old(pos), Block(raw).bytes)
    {
      if |raw| > INT32_MAX {
        SplicedNothing(data, pos);
        return BAD_VALUE;
      }
      WriteBytes(raw + Padding(|raw|));
      return OK;
    }

    method ReadPrimitive(p: Prim) returns (status: Status, n: int)
      requires Valid()
      modifies this`pos
      ensures Valid() && Read(status, n, pos) == ReadPrim(p, data, old(pos))
    {
      var w := Width(p);
      if pos + w > |data| {
        return NOT_ENOUGH_DATA, 0;
      }
      n := Narrowed(p, Number(data[pos..pos + w]));
      pos := pos + w;
      status := OK;
    }

    /** The read that gives zero when there is no whole word left, wherever the cursor is. */
    method ReadInt32() returns (n: int)
      modifies this`pos
      ensures n == WordAt(data, old(pos)) && pos == AfterWord(data, old(pos))
    {
      if pos + 4 > |data| {
        return 0;
      }
      n := Narrowed(Int32, Number(Piece(data, pos, 4)));
      pos := pos + 4;
    }

    method SkipString8()
      requires Valid()
      modifies this`pos
      ensures Valid() && pos == AfterString8(data, old(pos))
    {
      var size := ReadInt32();
      if 0 <= size < INT32_MAX && CanTake(size + 1, data, pos) {
        pos := pos + Padded(size + 1);
      }
    }

    method ReadUnits() returns (status: Status, units: seq<nat>)
      requires Valid()
      modifies this`pos
      ensures Valid() && Read(status, units, pos) == ReadString(data, old(pos))
    {
      var r := ReadString(data, pos);
      status, units, pos := r.status, r.val, r.pos;
    }

    // ----- writing a value of any type

    method WriteData(ty: Ty, v: Val) returns (status: Status)
      requires Valid() && HasType(ty, v)
      modifies this
      ensures status == Encode(ty, v).status && Holds(old(data), old(pos), Encode(ty, v).bytes)
      decreases ty, 0
    {
      match ty
      case Primitive(p) =>
        WritePrim(p, v.n);
        status := OK;
      case Str => status := WriteUnits(v.units);
      case Parcelable(fields) => status := WriteParcelable(fields, v.members);
      case Vector(elem) => status := WriteVector(elem, v.elems);
      case Nullable(target) =>
        if v.None? {
          WritePrim(Int32, NullMarker(target));
          return OK;
        }
        status := WriteData(target, v.value);
    }

    method WriteUnits(units: seq<nat>) returns (status: Status)
      requires Valid()
      modifies this
      ensures status == EncodeString(units).status
      ensures Holds(old(data), old(pos), EncodeString(units).bytes)
    {
      if |units| > INT32_MAX {
        SplicedNothing(data, pos);
        return BAD_VALUE;
      }
      WritePrim(Int32, |units|);
      var raw := UnitBytes(units + [0], |units| + 1);
      status := Write(raw);
      hide UnitBytes, Block, Int32Bytes, Spliced;
      SplicedTwice(old(data), old(pos), Int32Bytes(|units|), Block(raw).bytes);
    }

    method WriteParcelable(fields: seq<Ty>, vs: seq<Val>) returns (status: Status)
      requires Valid() && HasType(Parcelable(fields), Struct(vs))
      modifies this
      ensures status == Encode(Parcelable(fields), Struct(vs)).status
      ensures Holds(old(data), old(pos), Encode(Parcelable(fields), Struct(vs)).bytes)
      decreases fields, 3
    {
      WritePrim(Int32, NON_NULL_PARCELABLE);
      status := WriteFields(fields, vs);
      hide Int32Bytes, Spliced, EncodeFields;
      SplicedTwice(old(data), old(pos), Int32Bytes(NON_NULL_PARCELABLE), EncodeFields(fields, vs, |fields|).bytes);
    }

    method WriteVector(elem: Ty, vs: seq<Val>) returns (status: Status)
      requires Valid() && HasType(Vector(elem), Items(vs))
      modifies this
      ensures status == Encode(Vector(elem), Items(vs)).status
      ensures Holds(old(data), old(pos), Encode(Vector(elem), Items(vs)).bytes)
      decreases elem, 3
    {
      VectorIsBody(elem, vs);
      if |vs| > INT32_MAX {
        SplicedNothing(data, pos);
        return BAD_VALUE;
      }
      WritePrim(Int32, |vs|);
      if IsPacked(elem) {
        TypedNumbers(elem.prim, vs);
        status := Write(Flat(elem.prim, vs, |vs|));
      } else if elem.Primitive? {
        TypedNumbers(elem.prim, vs);
        status := WriteWords(elem.prim, vs);
      } else {
        status := WriteElements(elem, vs);
      }
      hide Int32Bytes, Spliced, EncodeElems, Flat, Encode, Block;
      SplicedTwice(old(data), old(pos), Int32Bytes(|vs|), Body(elem, vs).bytes);
    }

    method WriteElements(elem: Ty, vs: seq<Val>) returns (status: Status)
      requires Valid() && forall e | e in vs :: HasType(elem, e)
      modifies this
      ensures status == EncodeElems(elem, vs, |vs|).status
      ensures Holds(old(data), old(pos), EncodeElems(elem, vs, |vs|).bytes)
      decreases elem, 2
    {
      NoElems(elem, vs, data, pos);
      hide EncodeElems, HasType, Spliced, At;
      status := OK;
      var i := 0;
      while i < |vs| && status == OK
        invariant i <= |vs| && status == EncodeElems(elem, vs, i).status
        invariant Holds(old(data), old(pos), EncodeElems(elem, vs, i).bytes)
      {
        status := WriteElement(elem, vs, i, old(data), old(pos));
        i := i + 1;
      }
      if status != OK {
        ElemsStop(elem, vs, i, |vs|);
      }
    }

    /** One round of the loop over a vector's elements. */
    method WriteElement(elem: Ty, vs: seq<Val>, i: nat, ghost was: seq<Byte>, ghost start: nat) returns (status: Status)
      requires i < |vs| && (forall e | e in vs :: HasType(elem, e)) && EncodeElems(elem, vs, i).status == OK
      requires Holds(was, start, EncodeElems(elem, vs, i).bytes)
      modifies this
      ensures status == EncodeElems(elem, vs, i + 1).status
      ensures Holds(was, start, EncodeElems(elem, vs, i + 1).bytes)
      decreases elem, 1
    {
      hide Encode, EncodeElems, HasType, Spliced;
      ElemStep(elem, vs, i, was, start);
      status := WriteData(elem, vs[i]);
    }

    /** The values narrower than a word that are nevertheless written as whole words: space is taken
        for all of them, then filled one by one. */
    method WriteWords(p: Prim, vs: seq<Val>) returns (status: Status)
      requires Valid() && AllNumbers(vs) && !IsPacked(Primitive(p))
      modifies this
      ensures status == Block(Flat(p, vs, |vs|)).status
      ensures Holds(old(data), old(pos), Block(Flat(p, vs, |vs|)).bytes)
    {
      hide Filled, Flat, Block, Spliced, PrimBytes, Zeros, IsPacked;
      var len := 4 * |vs|;
      if len > INT32_MAX {
        TooManyWords(p, vs);
        SplicedNothing(data, pos);
        return BAD_VALUE;
      }
      var at := pos;
      WriteBytes(Zeros(len));
      var i := 0;
      FilledNone(p, vs);
      while i < |vs|
        invariant i <= |vs| && pos == old(pos) + len && at == old(pos) + 4 * i
        invariant data == Spliced(old(data), old(pos), Filled(p, vs, i))
      {
        FillOneMore(p, vs, i, old(data), old(pos));
        data := Spliced(data, at, PrimBytes(p, vs[i].n));
        at, i := at + 4, i + 1;
      }
      FilledAll(p, vs);
      status := OK;
    }

    method WriteFields(tys: seq<Ty>, vs: seq<Val>) returns (status: Status)
      requires Valid() && |tys| == |vs| && forall i | 0 <= i < |tys| :: HasType(tys[i], vs[i])
      modifies this
      ensures status == EncodeFields(tys, vs, |tys|).status
      ensures Holds(old(data), old(pos), EncodeFields(tys, vs, |tys|).bytes)
      decreases tys, 2
    {
      NoFields(tys, vs, data, pos);
      hide EncodeFields, HasType, Spliced;
      status := OK;
      var i := 0;
      while i < |tys| && status == OK
        invariant i <= |tys| && status == EncodeFields(tys, vs, i).status
        invariant Holds(old(data), old(pos), EncodeFields(tys, vs, i).bytes)
      {
        status := WriteField(tys, vs, i, old(data), old(pos));
        i := i + 1;
      }
      if status != OK {
        FieldsStop(tys, vs, i, |tys|);
      }
    }

    /** One field of a parcelable. */
    method WriteField(tys: seq<Ty>, vs: seq<Val>, i: nat, ghost was: seq<Byte>, ghost start: nat)
      returns (status: Status)
      requires i < |tys| == |vs| && forall j | 0 <= j < |tys| :: HasType(tys[j], vs[j])
      requires EncodeFields(tys, vs, i).status == OK && Holds(was, start, EncodeFields(tys, vs, i).bytes)
      modifies this
      ensures status == EncodeFields(tys, vs, i + 1).status
      ensures Holds(was, start, EncodeFields(tys, vs, i + 1).bytes)
      decreases tys, 1
    {
      hide Encode, EncodeFields, HasType, Spliced;
      FieldStep(tys, vs, i, was, start);
      status := WriteData(tys[i], vs[i]);
    }

    // ----- reading a value of any type

    method ReadData(ty: Ty) returns (status: Status, v: Val)
      requires Valid()
      modifies this`pos
      ensures Valid() && Read(status, v, pos) == Decode(ty, data, old(pos))
      decreases ty, 0
    {
      v := None;
      match ty
      case Primitive(p) =>
        var n;
        status, n := ReadPrimitive(p);
        v := Scalar(n);
      case Str =>
        var units;
        status, units := ReadUnits();
        v := Text(units);
      case Parcelable(fields) =>
        var present;
        status, present := ReadPrimitive(Int32);
        if status != OK {
          return;
        }
        if present != NON_NULL_PARCELABLE {
          return UNEXPECTED_NULL, None;
        }
        var members;
        status, members := ReadFields(fields);
        v := Struct(members);
      case Vector(elem) =>
        var size;
        status, size := ReadPrimitive(Int32);
        if status != OK {
          return;
        }
        if size < 0 {
          return UNEXPECTED_NULL, None;
        }
        if size > DataAvail() {
          return BAD_VALUE, None;
        }
        status, v := ReadElements(elem, size);
      case Nullable(target) =>
        var startPos := pos;
        var peek;
        status, peek := ReadPrimitive(Int32);
        if status != OK {
          return;
        }
        if peek == NullMarker(target) {
          return OK, None;
        }
        SetDataPosition(startPos);
        status, v := ReadData(target);
        v := Some(v);
    }

    /** What reading a vector does once its size is known to be possible. */
    ghost function BodyRead(elem: Ty, buf: seq<Byte>, start: nat, size: nat): (r: Read<Val>)
      requires start <= |buf|
    {
      if elem.Primitive? then
        var len := ElementWidth(elem.prim) * size;
        if CanTake(len, buf, start) then Read(OK, Items(Elements(elem.prim, buf, start, size)), start + Padded(len))
        else Read(BAD_VALUE, None, start)
      else
        var r := DecodeElems(elem, buf, start, size);
        Read(r.status, Items(r.val), r.pos)
    }

    method ReadElements(elem: Ty, size: nat) returns (status: Status, v: Val)
      requires Valid()
      modifies this`pos
      ensures Valid() && Read(status, v, pos) == BodyRead(elem, data, old(pos), size)
      decreases elem, 2
    {
      if elem.Primitive? {
        status, v := ReadPrims(elem.prim, size);
        return;
      }
      var vs: seq<Val> := [];
      var i := 0;
      status := OK;
      while i < size && status == OK
        invariant Valid() && i <= size
        invariant Read(status, vs, pos) == DecodeElems(elem, data, old(pos), i)
      {
        hide Decode;
        var e;
        status, e := ReadData(elem);
        vs, i := vs + [e], i + 1;
      }
      if status != OK {
        DecodeElemsStop(elem, data, old(pos), i, size);
      }
      v := Items(vs);
    }

    method ReadPrims(p: Prim, size: nat) returns (status: Status, v: Val)
      requires Valid()
      modifies this`pos
      ensures Valid() && Read(status, v, pos) == BodyRead(Primitive(p), data, old(pos), size)
    {
      var w := ElementWidth(p);
      var len := w * size;
      if !CanTake(len, data, pos) {
        return BAD_VALUE, None;
      }
      hide Elements, ElementAt, CanTake, ElementWidth, Padded;
      var vs: seq<Val> := [];
      var start, i := pos, 0;
      pos := pos + Padded(len);
      while i < size
        invariant i <= size && pos == start + Padded(len) && vs == ElementsUpTo(p, data, start, size, i)
      {
        ElementsGrow(p, data, start, size, i);
        vs := vs + [Scalar(ElementAt(p, data, start, i))];
        i := i + 1;
      }
      ElementsAll(p, data, start, size);
      return OK, Items(vs);
    }

    method ReadFields(tys: seq<Ty>) returns (status: Status, vs: seq<Val>)
      requires Valid()
      modifies this`pos
      ensures Valid() && Read(status, vs, pos) == DecodeFields(tys, data, old(pos), |tys|)
      decreases tys, 2
    {
      vs, status := [], OK;
      var i := 0;
      while i < |tys| && status == OK
        invariant Valid() && i <= |tys|
        invariant Read(status, vs, pos) == DecodeFields(tys, data, old(pos), i)
      {
        hide Decode;
        var e;
        status, e := ReadData(tys[i]);
        vs, i := vs + [e], i + 1;
      }
      if status != OK {
        DecodeFieldsStop(tys, data, old(pos), i, |tys|);
      }
    }
  }

  /** Writing a value and reading it back from where it was written. */
  method WriteThenRead(p: Parcel, ty: Ty, v: Val) returns (status: Status, w: Val)
    requires p.Valid() && Legal(ty) && HasType(ty, v)
    modifies p
    ensures status == OK <==> Fits(ty, v)
    ensures status == OK ==> w == v && p.Holds(old(p.data), old(p.pos), Encode(ty, v).bytes)
  {
    WriteSucceeds(ty, v);
    var start := p.pos;
    status := p.WriteData(ty, v);
    if status != OK {
      return status, None;
    }
    RoundTrip(ty, v, p.data, start);
    p.SetDataPosition(start);
    status, w := p.ReadData(ty);
  }

  /** Values of any types written one after the other and read back, in the order they were written. */
  method WriteThenReadAll(p: Parcel, tys: seq<Ty>, vs: seq<Val>) returns (status: Status, ws: seq<Val>)
    requires p.Valid() && |tys| == |vs| && forall i | 0 <= i < |tys| :: Legal(tys[i]) && HasType(tys[i], vs[i])
    modifies p
    ensures status == OK <==> forall i | 0 <= i < |tys| :: Fits(tys[i], vs[i])
    ensures status == OK ==> ws == vs && p.Holds(old(p.data), old(p.pos), EncodeFields(tys, vs, |tys|).bytes)
  {
    FieldsSucceed(tys, vs, |tys|);
    hide EncodeFields, Encode;
    var start := p.pos;
    status := p.WriteFields(tys, vs);
    if status != OK {
      return status, [];
    }
    FieldsRoundTrip(tys, vs, p.data, start, |tys|);
    assert vs[..|tys|] == vs;
    p.SetDataPosition(start);
    status, ws := p.ReadFields(tys);
  }
}
