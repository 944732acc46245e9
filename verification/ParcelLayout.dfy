/** The layout of parcels as the repository documents it: every byte of every type written out in numbers,
    apart from the functions that write and read. */
module ParcelLayout {
  import opened ByteSequences
  import opened ParcelFormat

  /** The word that holds `n`: negative numbers are counted down from 2 to the 32nd. */
  function Word(n: int): (s: seq<Byte>)
    requires -0x8000_0000 <= n < 0x1_0000_0000
  {
    LowestFirst(if n < 0 then n + 0x1_0000_0000 else n)
  }

  /** The two words that hold `n`, the lower first. */
  function TwoWords(n: int): (s: seq<Byte>)
    requires -0x8000_0000_0000_0000 <= n < 0x1_0000_0000_0000_0000
  {
    var m := if n < 0 then n + 0x1_0000_0000_0000_0000 else n;
    LowestFirst(m % 0x1_0000_0000) + LowestFirst(m / 0x1_0000_0000)
  }

  function Joined(parts: seq<seq<Byte>>): (s: seq<Byte>) {
    if parts == [] then [] else Joined(parts[..|parts| - 1]) + parts[|parts| - 1]
  }

  lemma OneMoreJoined(parts: seq<seq<Byte>>, k: nat)
    requires k < |parts|
    ensures Joined(parts[..k + 1]) == Joined(parts[..k]) + parts[k]
  {
    assert parts[..k + 1][..k] == parts[..k];
  }

  /** What each element writes on its own. */
  function Each(elem: Ty, vs: seq<Val>): (parts: seq<seq<Byte>>)
    requires forall v | v in vs :: HasType(elem, v)
    ensures |parts| == |vs|
  {
    seq(|vs|, i requires 0 <= i < |vs| => Encode(elem, vs[i]).bytes)
  }

  function EachField(tys: seq<Ty>, vs: seq<Val>): (parts: seq<seq<Byte>>)
    requires |tys| == |vs| && forall i | 0 <= i < |tys| :: HasType(tys[i], vs[i])
    ensures |parts| == |vs|
  {
    seq(|vs|, i requires 0 <= i < |vs| => Encode(tys[i], vs[i]).bytes)
  }

  /** Wide primitives are two words, all others one: an unsigned byte is widened as a signed one. */
  lemma PrimitiveLayout(p: Prim, n: int)
    requires InRange(p, n)
    ensures Encode(Primitive(p), Scalar(n)).status == OK
    ensures Encode(Primitive(p), Scalar(n)).bytes ==
      if p in {Int64, Uint64, Double} then TwoWords(n) else Word(if p == Uint8 && n >= 128 then n - 256 else n)
  {
    var k := Widened(p, n);
    Bounds();
    WrapRange(p, n, Width(p));
    ModOnce(k, Bound(Width(p)));
    if p in {Int64, Uint64, Double} {
      EightBytes(if n < 0 then n + 0x1_0000_0000_0000_0000 else n);
    } else {
      FourBytes(if k < 0 then k + 0x1_0000_0000 else k);
    }
  }

  lemma SizeLayout(n: nat)
    requires n <= 0x7fff_ffff
    ensures Int32Bytes(n) == Word(n)
  {
    PrimitiveLayout(Int32, n);
  }

  /** Where the parts of a padded block stand. */
  lemma PaddedBlock(size: seq<Byte>, raw: seq<Byte>, bytes: seq<Byte>)
    requires |size| == 4 && bytes == size + (raw + Padding(|raw|))
    ensures |bytes| == 4 + (|raw| + 3) / 4 * 4 && bytes[..4] == size
    ensures forall i | 0 <= i < |raw| :: bytes[4 + i] == raw[i]
    ensures forall i | 4 + |raw| <= i < |bytes| :: bytes[i] == 0
  {
  }

  /** A string is its length, its units with the lower byte first, and zeros: a terminating unit, then up to a
      whole word. */
  lemma StringLayout(units: seq<nat>)
    requires (forall u | u in units :: u < 0x1_0000) && 2 * (|units| + 1) <= 0x7fff_ffff
    ensures var w := Encode(Str, Text(units));
      && w.status == OK && |w.bytes| == 4 + (2 * |units| + 5) / 4 * 4
      && w.bytes[..4] == Word(|units|)
      && (forall i | 0 <= i < |units| ::
            w.bytes[4 + 2 * i] == units[i] % 0x100 && w.bytes[5 + 2 * i] == units[i] / 0x100)
      && forall i | 4 + 2 * |units| <= i < |w.bytes| :: w.bytes[i] == 0
  {
    var ended, raw := units + [0], UnitBytes(units + [0], |units| + 1);
    SizeLayout(|units|);
    var bytes := Encode(Str, Text(units)).bytes;
    hide Int32Bytes, UnitBytes, Padding, Word;
    assert bytes == Int32Bytes(|units|) + (raw + Padding(|raw|));
    hide Encode;
    PaddedBlock(Int32Bytes(|units|), raw, bytes);
    UnitsInBytes(units, ended, raw, bytes);
  }

  lemma UnitsInBytes(units: seq<nat>, ended: seq<nat>, raw: seq<Byte>, bytes: seq<Byte>)
    requires (forall u | u in units :: u < 0x1_0000) && ended == units + [0] && raw == UnitBytes(ended, |units| + 1)
    requires 4 + |raw| <= |bytes| && forall i | 0 <= i < |raw| :: bytes[4 + i] == raw[i]
    requires forall i | 4 + |raw| <= i < |bytes| :: bytes[i] == 0
    ensures forall i | 0 <= i < |units| ::
      bytes[4 + 2 * i] == units[i] % 0x100 && bytes[5 + 2 * i] == units[i] / 0x100
    ensures forall i | 4 + 2 * |units| <= i < |bytes| :: bytes[i] == 0
  {
    hide UnitBytes;
    forall i | 0 <= i < |units|
      ensures bytes[4 + 2 * i] == units[i] % 0x100 && bytes[5 + 2 * i] == units[i] / 0x100
    {
      assert units[i] in units && ended[i] == units[i];
      TwoBytes(ended, raw, i);
      assert bytes[4 + (2 * i)] == raw[2 * i] && bytes[4 + (2 * i + 1)] == raw[2 * i + 1];
    }
    var n := |units|;
    TwoBytes(ended, raw, n);
    assert bytes[4 + 2 * n] == raw[2 * n] && bytes[4 + (2 * n + 1)] == raw[2 * n + 1];
  }

  lemma TwoBytes(units: seq<nat>, raw: seq<Byte>, i: nat)
    requires i < |units| && units[i] < 0x1_0000 && raw == UnitBytes(units, |units|)
    ensures raw[2 * i] == units[i] % 0x100 && raw[2 * i + 1] == units[i] / 0x100
  {
    UnitBytesAt(units, |units|, i);
    LowAndHigh(units[i]);
    hide UnitBytes, Bytes;
    assert raw[2 * i] == Piece(raw, 2 * i, 2)[0] && raw[2 * i + 1] == Piece(raw, 2 * i, 2)[1];
  }

  lemma LowAndHigh(u: nat)
    requires u < 0x1_0000
    ensures Bytes(2, u) == [u % 0x100, u / 0x100]
  {
    assert Bytes(1, u / 0x100) == [u / 0x100 % 0x100];
  }

  /** A vector of bytes is its length, one byte an element, and zeros up to a whole word. */
  lemma ByteVectorLayout(p: Prim, vs: seq<Val>)
    requires p in {Int8, Uint8} && HasType(Vector(Primitive(p)), Items(vs)) && |vs| <= 0x7fff_ffff
    ensures var w := Encode(Vector(Primitive(p)), Items(vs));
      && w.status == OK && |w.bytes| == 4 + (|vs| + 3) / 4 * 4
      && w.bytes[..4] == Word(|vs|)
      && (forall i | 0 <= i < |vs| :: vs[i].Scalar? && w.bytes[4 + i] == if vs[i].n < 0 then vs[i].n + 256 else vs[i].n)
      && forall i | 4 + |vs| <= i < |w.bytes| :: w.bytes[i] == 0
  {
    TypedAll(p, vs);
    hide Encode, Flat, Int32Bytes, Word, Padding, HasType, AllNumbers;
    var flat, bytes := BlockOf(p, vs);
    SizeLayout(|vs|);
    FlatBytes(p, vs);
    PaddedBlock(Int32Bytes(|vs|), flat, bytes);
  }

  lemma FlatBytes(p: Prim, vs: seq<Val>)
    requires p in {Int8, Uint8} && AllNumbers(vs) && forall v | v in vs :: HasType(Primitive(p), v)
    ensures |Flat(p, vs, |vs|)| == |vs| && forall i | 0 <= i < |vs| ::
      vs[i].Scalar? && Flat(p, vs, |vs|)[i] == if vs[i].n < 0 then vs[i].n + 256 else vs[i].n
  {
    FlatLength(p, vs, |vs|);
    hide Flat;
    forall i | 0 <= i < |vs|
      ensures vs[i].Scalar? && Flat(p, vs, |vs|)[i] == if vs[i].n < 0 then vs[i].n + 256 else vs[i].n
    {
      assert vs[i] in vs;
      OneByte(p, vs, |vs|, i);
    }
  }

  /** What a vector of primitives writes after its length. */
  lemma BlockOf(p: Prim, vs: seq<Val>) returns (flat: seq<Byte>, bytes: seq<Byte>)
    requires HasType(Vector(Primitive(p)), Items(vs)) && ElementWidth(p) * |vs| <= 0x7fff_ffff
    ensures AllNumbers(vs) && flat == Flat(p, vs, |vs|) && |flat| == ElementWidth(p) * |vs|
    ensures Encode(Vector(Primitive(p)), Items(vs)) == Written(bytes, OK)
    ensures bytes == Int32Bytes(|vs|) + (flat + Padding(|flat|))
  {
    TypedNumbers(p, vs);
    FlatLength(p, vs, |vs|);
    flat, bytes := Flat(p, vs, |vs|), Encode(Vector(Primitive(p)), Items(vs)).bytes;
    hide Flat, Int32Bytes, ElementWidth, Padding, AllNumbers, HasType;
  }

  lemma ByteOf(p: Prim, n: int)
    requires p in {Int8, Uint8} && InRange(p, n)
    ensures ElementBytes(p, n) == [if n < 0 then n + 256 else n]
  {
    ModOnce(n, 256);
    assert Bound(1) == 256;
  }

  lemma OneMoreByte(p: Prim, vs: seq<Val>, k: nat)
    requires p in {Int8, Uint8} && k < |vs| && AllNumbers(vs)
    ensures |Flat(p, vs, k)| == k && Flat(p, vs, k + 1) == Flat(p, vs, k) + ElementBytes(p, vs[k].n)
  {
    FlatLength(p, vs, k);
    hide ElementBytes;
  }

  lemma {:induction false} OneByte(p: Prim, vs: seq<Val>, k: nat, i: nat)
    requires p in {Int8, Uint8} && i < k <= |vs| && AllNumbers(vs) && HasType(Primitive(p), vs[i])
    ensures |Flat(p, vs, k)| == k && Flat(p, vs, k)[i] == if vs[i].n < 0 then vs[i].n + 256 else vs[i].n
    decreases k
  {
    ByteOf(p, vs[i].n);
    OneMoreByte(p, vs, k - 1);
    hide Flat, ElementBytes, AllNumbers;
    if i < k - 1 {
      OneByte(p, vs, k - 1, i);
    }
  }

  /** A vector of anything else is its length and then what each element writes on its own. */
  lemma VectorLayout(elem: Ty, vs: seq<Val>)
    requires elem != Primitive(Int8) && elem != Primitive(Uint8)
    requires HasType(Vector(elem), Items(vs)) && Encode(Vector(elem), Items(vs)).status == OK
    ensures |vs| <= 0x7fff_ffff && Encode(Vector(elem), Items(vs)).bytes == Word(|vs|) + Joined(Each(elem, vs))
  {
    SizeLayout(|vs|);
    var parts := Each(elem, vs);
    assert parts[..|vs|] == parts;
    hide Encode, Joined, Each, Int32Bytes, Word;
    if elem.Primitive? {
      NumbersLayout(elem.prim, vs, parts);
    } else {
      ElemsLayout(elem, vs, parts);
    }
  }

  lemma NumbersLayout(p: Prim, vs: seq<Val>, parts: seq<seq<Byte>>)
    requires p !in {Int8, Uint8} && HasType(Vector(Primitive(p)), Items(vs))
    requires Encode(Vector(Primitive(p)), Items(vs)).status == OK && parts == Each(Primitive(p), vs)
    ensures Encode(Vector(Primitive(p)), Items(vs)).bytes == Int32Bytes(|vs|) + Joined(parts)
  {
    hide Encode, Flat, Joined, Each, Int32Bytes, HasType, AllNumbers, Padding, ElementWidth;
    assert parts[..|vs|] == parts;
    BlockFits(p, vs);
    WideElements(p, |vs|);
    var flat, bytes := BlockOf(p, vs);
    TypedAll(p, vs);
    FlatJoins(p, vs, |vs|, parts);
    WholeWords(flat);
  }

  lemma WideElements(p: Prim, n: nat)
    requires p !in {Int8, Uint8}
    ensures ElementWidth(p) * n % 4 == 0
  {
    assert 8 * n % 4 == 0;
  }

  lemma TypedAll(p: Prim, vs: seq<Val>)
    requires HasType(Vector(Primitive(p)), Items(vs))
    ensures forall v | v in vs :: HasType(Primitive(p), v)
  {
  }

  lemma WholeWords(flat: seq<Byte>)
    requires |flat| % 4 == 0
    ensures flat + Padding(|flat|) == flat
  {
    var q := |flat| / 4;
    assert (4 * q + 3) / 4 == q;
    assert Padding(|flat|) == [];
  }

  lemma BlockFits(p: Prim, vs: seq<Val>)
    requires HasType(Vector(Primitive(p)), Items(vs)) && Encode(Vector(Primitive(p)), Items(vs)).status == OK
    ensures ElementWidth(p) * |vs| <= 0x7fff_ffff
  {
    TypedAll(p, vs);
    hide Flat, ElementWidth, AllNumbers, HasType, Int32Bytes, Padding;
    TypedNumbers(p, vs);
    FlatLength(p, vs, |vs|);
  }

  lemma ElemsLayout(elem: Ty, vs: seq<Val>, parts: seq<seq<Byte>>)
    requires !elem.Primitive? && HasType(Vector(elem), Items(vs))
    requires Encode(Vector(elem), Items(vs)).status == OK && parts == Each(elem, vs)
    ensures Encode(Vector(elem), Items(vs)).bytes == Int32Bytes(|vs|) + Joined(parts)
  {
    assert parts[..|vs|] == parts;
    hide EncodeElems, Joined, Each, Int32Bytes;
    assert EncodeElems(elem, vs, |vs|).status == OK;
    ElemsJoin(elem, vs, |vs|, parts);
  }

  lemma {:induction false} FlatJoins(p: Prim, vs: seq<Val>, k: nat, parts: seq<seq<Byte>>)
    requires p !in {Int8, Uint8} && k <= |vs| && (forall v | v in vs :: HasType(Primitive(p), v))
    requires AllNumbers(vs) && parts == Each(Primitive(p), vs)
    ensures Flat(p, vs, k) == Joined(parts[..k])
  {
    if k > 0 {
      assert ElementBytes(p, vs[k - 1].n) == parts[k - 1];
      assert Flat(p, vs, k) == Flat(p, vs, k - 1) + ElementBytes(p, vs[k - 1].n);
      hide Flat, Each, Joined, HasType, AllNumbers, ElementBytes;
      FlatJoins(p, vs, k - 1, parts);
      OneMoreJoined(parts, k - 1);
    }
  }

  lemma PartOf(elem: Ty, vs: seq<Val>, i: nat)
    requires i < |vs| && forall v | v in vs :: HasType(elem, v)
    ensures Each(elem, vs)[i] == Encode(elem, vs[i]).bytes
  {
    hide Encode, HasType;
  }

  lemma PartOfField(tys: seq<Ty>, vs: seq<Val>, i: nat)
    requires i < |tys| == |vs| && forall j | 0 <= j < |tys| :: HasType(tys[j], vs[j])
    ensures EachField(tys, vs)[i] == Encode(tys[i], vs[i]).bytes
  {
    hide Encode, HasType;
  }

  lemma OneMoreElem(elem: Ty, vs: seq<Val>, i: nat)
    requires i < |vs| && forall v | v in vs :: HasType(elem, v)
    ensures EncodeElems(elem, vs, i + 1).status == OK ==> EncodeElems(elem, vs, i).status == OK
    ensures var before, last := EncodeElems(elem, vs, i), Encode(elem, vs[i]);
      before.status == OK ==> EncodeElems(elem, vs, i + 1) == Written(before.bytes + last.bytes, last.status)
  {
    hide Encode, HasType;
  }

  lemma OneMoreField(tys: seq<Ty>, vs: seq<Val>, i: nat)
    requires i < |tys| == |vs| && forall j | 0 <= j < |tys| :: HasType(tys[j], vs[j])
    ensures EncodeFields(tys, vs, i + 1).status == OK ==> EncodeFields(tys, vs, i).status == OK
    ensures var before, last := EncodeFields(tys, vs, i), Encode(tys[i], vs[i]);
      before.status == OK ==> EncodeFields(tys, vs, i + 1) == Written(before.bytes + last.bytes, last.status)
  {
    hide Encode, HasType;
  }

  lemma {:induction false} ElemsJoin(elem: Ty, vs: seq<Val>, k: nat, parts: seq<seq<Byte>>)
    requires k <= |vs| && (forall v | v in vs :: HasType(elem, v)) && EncodeElems(elem, vs, k).status == OK
    requires parts == Each(elem, vs)
    ensures EncodeElems(elem, vs, k).bytes == Joined(parts[..k])
  {
    if k > 0 {
      hide Encode, HasType, Joined, EncodeElems, Each;
      PartOf(elem, vs, k - 1);
      OneMoreElem(elem, vs, k - 1);
      ElemsJoin(elem, vs, k - 1, parts);
      OneMoreJoined(parts, k - 1);
    }
  }

  lemma {:induction false} FieldsJoin(tys: seq<Ty>, vs: seq<Val>, k: nat, parts: seq<seq<Byte>>)
    requires k <= |tys| == |vs| && (forall i | 0 <= i < |tys| :: HasType(tys[i], vs[i]))
    requires EncodeFields(tys, vs, k).status == OK && parts == EachField(tys, vs)
    ensures EncodeFields(tys, vs, k).bytes == Joined(parts[..k])
  {
    if k > 0 {
      hide Encode, HasType, Joined, EncodeFields, EachField;
      PartOfField(tys, vs, k - 1);
      OneMoreField(tys, vs, k - 1);
      FieldsJoin(tys, vs, k - 1, parts);
      OneMoreJoined(parts, k - 1);
    }
  }

  /** A parcelable is a one and then what each field writes on its own. */
  lemma ParcelableLayout(tys: seq<Ty>, vs: seq<Val>)
    requires HasType(Parcelable(tys), Struct(vs)) && Encode(Parcelable(tys), Struct(vs)).status == OK
    ensures Encode(Parcelable(tys), Struct(vs)).bytes == [1, 0, 0, 0] + Joined(EachField(tys, vs))
  {
    var parts := EachField(tys, vs);
    assert parts[..|vs|] == parts;
    OneWord();
    hide EncodeFields, Joined, EachField, Int32Bytes;
    FieldsJoin(tys, vs, |vs|, parts);
  }

  lemma OneWord()
    ensures Int32Bytes(1) == [1, 0, 0, 0]
  {
    PrimitiveLayout(Int32, 1);
  }

  lemma MinusOne()
    ensures Int32Bytes(-1) == [255, 255, 255, 255]
  {
    PrimitiveLayout(Int32, -1);
  }

  lemma NullWords()
    ensures Int32Bytes(0) == [0, 0, 0, 0] && Int32Bytes(-1) == [255, 255, 255, 255]
  {
    SizeLayout(0);
    MinusOne();
    hide Int32Bytes;
  }

  /** Null is a zero for a parcelable and -1 for a vector or a string; anything else is written as it is. */
  lemma NullableLayout(target: Ty, v: Val)
    requires Legal(Nullable(target)) && HasType(Nullable(target), v)
    ensures Encode(Nullable(target), v) ==
      if v == None then Written(if target.Parcelable? then [0, 0, 0, 0] else [255, 255, 255, 255], OK)
      else Encode(target, v.value)
  {
    NullWords();
    hide Int32Bytes;
  }

  // ----- writes that fail

  /** A vector that is too long writes nothing; one whose block would be too large writes its length. */
  lemma TooLong(elem: Ty, vs: seq<Val>)
    requires HasType(Vector(elem), Items(vs))
    ensures |vs| > 0x7fff_ffff ==> Encode(Vector(elem), Items(vs)) == Written([], BAD_VALUE)
    ensures |vs| <= 0x7fff_ffff && elem.Primitive? ==>
      var size := if elem.prim in {Int64, Uint64, Double} then 8 else if elem.prim in {Int8, Uint8} then 1 else 4;
      size * |vs| > 0x7fff_ffff ==> Encode(Vector(elem), Items(vs)) == Written(Word(|vs|), BAD_VALUE)
  {
    if |vs| <= 0x7fff_ffff && elem.Primitive? {
      TypedNumbers(elem.prim, vs);
      FlatLength(elem.prim, vs, |vs|);
      SizeLayout(|vs|);
      hide Flat, Int32Bytes, Word, HasType;
    }
  }

  lemma {:induction false} ElemsGoWell(elem: Ty, vs: seq<Val>, k: nat)
    requires k <= |vs| && forall v | v in vs :: HasType(elem, v)
    requires forall j | 0 <= j < k :: Encode(elem, vs[j]).status == OK
    ensures EncodeElems(elem, vs, k).status == OK
  {
    if k > 0 {
      hide Encode, HasType;
      ElemsGoWell(elem, vs, k - 1);
    }
  }

  lemma ElemStops(elem: Ty, vs: seq<Val>, i: nat, parts: seq<seq<Byte>>)
    requires i < |vs| && (forall v | v in vs :: HasType(elem, v)) && parts == Each(elem, vs)
    requires (forall j | 0 <= j < i :: Encode(elem, vs[j]).status == OK) && Encode(elem, vs[i]).status != OK
    ensures EncodeElems(elem, vs, |vs|) == Written(Joined(parts[..i + 1]), Encode(elem, vs[i]).status)
  {
    hide Encode, HasType, Joined, EncodeElems, Each;
    PartOf(elem, vs, i);
    ElemsGoWell(elem, vs, i);
    ElemsJoin(elem, vs, i, parts);
    OneMoreJoined(parts, i);
    OneMoreElem(elem, vs, i);
    ElemsStop(elem, vs, i + 1, |vs|);
  }

  /** A vector stops at the first element that cannot be written: what that element wrote stays, and its status
      is the vector's. */
  lemma VectorStops(elem: Ty, vs: seq<Val>, i: nat)
    requires !elem.Primitive? && HasType(Vector(elem), Items(vs)) && i < |vs| <= 0x7fff_ffff
    requires (forall j | 0 <= j < i :: Encode(elem, vs[j]).status == OK) && Encode(elem, vs[i]).status != OK
    ensures Encode(Vector(elem), Items(vs))
         == Written(Word(|vs|) + Joined(Each(elem, vs)[..i + 1]), Encode(elem, vs[i]).status)
  {
    SizeLayout(|vs|);
    ElemStops(elem, vs, i, Each(elem, vs));
    hide EncodeElems, Joined, Each, Int32Bytes, Word;
  }

  lemma {:induction false} FieldsGoWell(tys: seq<Ty>, vs: seq<Val>, k: nat)
    requires k <= |tys| == |vs| && forall j | 0 <= j < |tys| :: HasType(tys[j], vs[j])
    requires forall j | 0 <= j < k :: Encode(tys[j], vs[j]).status == OK
    ensures EncodeFields(tys, vs, k).status == OK
  {
    if k > 0 {
      hide Encode, HasType;
      FieldsGoWell(tys, vs, k - 1);
    }
  }

  lemma FieldStops(tys: seq<Ty>, vs: seq<Val>, i: nat, parts: seq<seq<Byte>>)
    requires i < |tys| == |vs| && (forall j | 0 <= j < |tys| :: HasType(tys[j], vs[j])) && parts == EachField(tys, vs)
    requires (forall j | 0 <= j < i :: Encode(tys[j], vs[j]).status == OK) && Encode(tys[i], vs[i]).status != OK
    ensures EncodeFields(tys, vs, |vs|) == Written(Joined(parts[..i + 1]), Encode(tys[i], vs[i]).status)
  {
    hide Encode, HasType, Joined, EncodeFields, EachField;
    PartOfField(tys, vs, i);
    FieldsGoWell(tys, vs, i);
    FieldsJoin(tys, vs, i, parts);
    OneMoreJoined(parts, i);
    OneMoreField(tys, vs, i);
    FieldsStop(tys, vs, i + 1, |vs|);
  }

  /** So does a parcelable at its first such field. */
  lemma ParcelableStops(tys: seq<Ty>, vs: seq<Val>, i: nat)
    requires HasType(Parcelable(tys), Struct(vs)) && i < |vs|
    requires (forall j | 0 <= j < i :: Encode(tys[j], vs[j]).status == OK) && Encode(tys[i], vs[i]).status != OK
    ensures Encode(Parcelable(tys), Struct(vs))
         == Written([1, 0, 0, 0] + Joined(EachField(tys, vs)[..i + 1]), Encode(tys[i], vs[i]).status)
  {
    OneWord();
    FieldStops(tys, vs, i, EachField(tys, vs));
    hide EncodeFields, Joined, EachField, Int32Bytes;
  }

  // ----- reads of any data

  /** What each primitive makes of a word, whatever wrote it: narrow ones drop the upper bytes, and any word but
      zero is true. */
  lemma PrimitiveReads(p: Prim, buf: seq<Byte>, pos: nat, m: nat)
    requires p !in {Int64, Uint64, Double} && m < 0x1_0000_0000
    requires pos + 4 <= |buf| && buf[pos..pos + 4] == LowestFirst(m)
    ensures Decode(Primitive(p), buf, pos) == Read(OK, Scalar(
      match p
      case Bool => if m == 0 then 0 else 1
      case Int8 => if m % 0x100 >= 0x80 then m % 0x100 - 0x100 else m % 0x100
      case Uint8 => m % 0x100
      case Char16 => m % 0x1_0000
      case Int32 => if m >= 0x8000_0000 then m - 0x1_0000_0000 else m
      case _ => m), pos + 4)
  {
    FourBytes(m);
    Bounds();
    NumberOfBytes(4, m);
    assert Number(Piece(buf, pos, 4)) == m;
    hide Number, Bytes, LowestFirst;
  }

  // ----- reads of too little data

  lemma PieceOfMore(buf: seq<Byte>, more: seq<Byte>, pos: nat, len: nat)
    requires pos + len <= |buf|
    ensures Piece(buf + more, pos, len) == Piece(buf, pos, len)
  {
  }

  lemma PrimOfMore(p: Prim, buf: seq<Byte>, more: seq<Byte>, pos: nat)
    requires pos <= |buf| && ReadPrim(p, buf, pos).status == OK
    ensures ReadPrim(p, buf + more, pos) == ReadPrim(p, buf, pos)
  {
    PieceOfMore(buf, more, pos, Width(p));
  }

  lemma StringOfMore(buf: seq<Byte>, more: seq<Byte>, pos: nat)
    requires pos <= |buf| && ReadString(buf, pos).status == OK
    ensures ReadString(buf + more, pos) == ReadString(buf, pos)
  {
    var size := ReadPrim(Int32, buf, pos);
    assert size.status == OK;
    PrimOfMore(Int32, buf, more, pos);
    hide ReadPrim;
    forall i | 0 <= i <= size.val
      ensures UnitAt(buf + more, size.pos, i) == UnitAt(buf, size.pos, i)
    {
      PieceOfMore(buf, more, size.pos + 2 * i, 2);
    }
    hide UnitAt;
    assert Units(buf + more, size.pos, size.val) == Units(buf, size.pos, size.val);
  }

  lemma ElementsOfMore(p: Prim, buf: seq<Byte>, more: seq<Byte>, pos: nat, n: nat)
    requires pos + ElementWidth(p) * n <= |buf|
    ensures Elements(p, buf + more, pos, n) == Elements(p, buf, pos, n)
  {
    hide ElementWidth, ElementAt;
    forall i | 0 <= i < n
      ensures Elements(p, buf + more, pos, n)[i] == Elements(p, buf, pos, n)[i]
    {
      ElementFits(ElementWidth(p), i, n);
      ElementOfMore(p, buf, more, pos, i);
    }
  }

  lemma ElementOfMore(p: Prim, buf: seq<Byte>, more: seq<Byte>, pos: nat, i: nat)
    requires pos + ElementWidth(p) * (i + 1) <= |buf|
    ensures ElementAt(p, buf + more, pos, i) == ElementAt(p, buf, pos, i)
  {
    var w := ElementWidth(p);
    assert w * i + w == w * (i + 1);
    hide ElementWidth, Narrowed, Number;
    PieceOfMore(buf, more, pos + w * i, w);
  }

  /** What has been read does not change when more data follows. */
  lemma {:induction false} DecodeOfMore(ty: Ty, buf: seq<Byte>, more: seq<Byte>, pos: nat)
    requires pos <= |buf| && Decode(ty, buf, pos).status == OK
    ensures Decode(ty, buf + more, pos) == Decode(ty, buf, pos)
    decreases ty, 0
  {
    match ty
    case Primitive(p) => PrimOfMore(p, buf, more, pos);
    case Str => StringOfMore(buf, more, pos);
    case Parcelable(fields) =>
      PrimOfMore(Int32, buf, more, pos);
      hide ReadPrim, DecodeFields;
      FieldsOfMore(fields, buf, more, ReadPrim(Int32, buf, pos).pos, |fields|);
    case Vector(elem) =>
      var size := ReadPrim(Int32, buf, pos);
      PrimOfMore(Int32, buf, more, pos);
      hide ReadPrim, DecodeElems, Elements;
      if elem.Primitive? {
        ElementsOfMore(elem.prim, buf, more, size.pos, size.val);
      } else {
        ElemsOfMore(elem, buf, more, size.pos, size.val);
      }
    case Nullable(target) =>
      var peek := ReadPrim(Int32, buf, pos);
      PrimOfMore(Int32, buf, more, pos);
      hide ReadPrim;
      if peek.val != NullMarker(target) {
        DecodeOfMore(target, buf, more, pos);
      }
  }

  lemma {:induction false} ElemsOfMore(elem: Ty, buf: seq<Byte>, more: seq<Byte>, pos: nat, k: nat)
    requires pos <= |buf| && DecodeElems(elem, buf, pos, k).status == OK
    ensures DecodeElems(elem, buf + more, pos, k) == DecodeElems(elem, buf, pos, k)
    decreases elem, 1, k
  {
    if k > 0 {
      hide Decode;
      ElemsOfMore(elem, buf, more, pos, k - 1);
      DecodeOfMore(elem, buf, more, DecodeElems(elem, buf, pos, k - 1).pos);
    }
  }

  lemma {:induction false} FieldsOfMore(tys: seq<Ty>, buf: seq<Byte>, more: seq<Byte>, pos: nat, k: nat)
    requires pos <= |buf| && k <= |tys| && DecodeFields(tys, buf, pos, k).status == OK
    ensures DecodeFields(tys, buf + more, pos, k) == DecodeFields(tys, buf, pos, k)
    decreases tys, 1, k
  {
    if k > 0 {
      hide Decode;
      FieldsOfMore(tys, buf, more, pos, k - 1);
      DecodeOfMore(tys[k - 1], buf, more, DecodeFields(tys, buf, pos, k - 1).pos);
    }
  }

  /** Reading fails wherever the data ends within what was written. */
  lemma TruncationIsNoticed(ty: Ty, v: Val, buf: seq<Byte>, pos: nat, end: nat)
    requires Legal(ty) && HasType(ty, v) && Encode(ty, v).status == OK && At(Encode(ty, v).bytes, buf, pos)
    requires pos <= end < pos + |Encode(ty, v).bytes|
    ensures Decode(ty, buf[..end], pos).status != OK
  {
    hide Encode, Decode, HasType, Legal;
    assert end <= |buf|;
    if Decode(ty, buf[..end], pos).status == OK {
      DecodeOfMore(ty, buf[..end], buf[end..], pos);
      assert buf[..end] + buf[end..] == buf;
      RoundTrip(ty, v, buf, pos);
      assert false;
    }
  }

  /** How a read is refused: by the data that is left, which leaves the cursor, or by its first word, which
      has then been taken. */
  lemma WhenRefused(ty: Ty, buf: seq<Byte>, pos: nat)
    requires pos <= |buf|
    ensures ty.Primitive? ==>
      var size := if ty.prim in {Int64, Uint64, Double} then 8 else 4;
      Decode(ty, buf, pos).status == if |buf| - pos < size then NOT_ENOUGH_DATA else OK
    ensures ty == Str ==> Decode(ty, buf, pos).status in {OK, UNEXPECTED_NULL}
    ensures ty != Str && !ty.Primitive? && |buf| - pos < 4 ==>
      Decode(ty, buf, pos).status == NOT_ENOUGH_DATA && Decode(ty, buf, pos).pos == pos
    ensures forall n | -0x8000_0000 <= n < 0x8000_0000 && pos + 4 <= |buf| && buf[pos..pos + 4] == Word(n) ::
      && (ty.Parcelable? && n != 1 ==> Refused(ty, buf, pos, UNEXPECTED_NULL))
      && (ty.Vector? && n < 0 ==> Refused(ty, buf, pos, UNEXPECTED_NULL))
      && (ty.Vector? && n > |buf| - pos - 4 ==> Refused(ty, buf, pos, BAD_VALUE))
  {
    forall n | -0x8000_0000 <= n < 0x8000_0000 && pos + 4 <= |buf| && buf[pos..pos + 4] == Word(n)
      ensures ReadPrim(Int32, buf, pos) == Read(OK, n, pos + 4)
    {
      FirstWord(n, buf, pos);
    }
    hide Word, Narrowed, Number;
  }

  predicate Refused(ty: Ty, buf: seq<Byte>, pos: nat, status: Status)
    requires pos <= |buf|
  {
    Decode(ty, buf, pos).status == status && Decode(ty, buf, pos).pos == pos + 4
  }

  lemma FirstWord(n: int, buf: seq<Byte>, pos: nat)
    requires -0x8000_0000 <= n < 0x8000_0000 && pos + 4 <= |buf| && buf[pos..pos + 4] == Word(n)
    ensures ReadPrim(Int32, buf, pos) == Read(OK, n, pos + 4)
  {
    PrimitiveLayout(Int32, n);
    PrimRoundTrip(Int32, n);
  }

  /** When a string is read: its length is neither negative nor too large, it is all there, and a zero unit ends it. */
  lemma WhenStringIsRead(n: int, buf: seq<Byte>, pos: nat)
    requires -0x8000_0000 <= n < 0x8000_0000 && pos + 4 <= |buf| && buf[pos..pos + 4] == Word(n)
    ensures Decode(Str, buf, pos).status == OK <==>
      && 0 <= n && 2 * (n + 1) <= 0x7fff_ffff && pos + 4 + (2 * n + 5) / 4 * 4 <= |buf|
      && buf[pos + 4 + 2 * n] == buf[pos + 5 + 2 * n] == 0
  {
    FirstWord(n, buf, pos);
    hide ReadPrim, Word, Units;
    if 0 <= n && pos + 4 + 2 * (n + 1) <= |buf| {
      ZeroUnit(buf, pos + 4, n);
    }
  }

  lemma ZeroUnit(buf: seq<Byte>, pos: nat, i: nat)
    requires pos + 2 * (i + 1) <= |buf|
    ensures UnitAt(buf, pos, i) == 0 <==> buf[pos + 2 * i] == buf[pos + 2 * i + 1] == 0
  {
    var s := Piece(buf, pos + 2 * i, 2);
    assert s[0] == buf[pos + 2 * i] && s[1] == buf[pos + 2 * i + 1];
    assert s[1..][1..] == [] && s[1..][0] == s[1];
    assert Number(s) == s[0] + 256 * Number(s[1..]) && Number(s[1..]) == s[1];
  }

  /** Where a read of elements fails: at the first that does, whose status and cursor it keeps. */
  ghost predicate FailsAt(elem: Ty, buf: seq<Byte>, start: nat, i: nat, status: Status, end: nat)
    requires start <= |buf|
  {
    var before := DecodeElems(elem, buf, start, i);
    && before.status == OK && status != OK
    && Decode(elem, buf, before.pos).status == status && Decode(elem, buf, before.pos).pos == end
  }

  lemma {:induction false} ElemsFail(elem: Ty, buf: seq<Byte>, start: nat, k: nat) returns (i: nat)
    requires start <= |buf| && DecodeElems(elem, buf, start, k).status != OK
    ensures var r := DecodeElems(elem, buf, start, k); i < k && FailsAt(elem, buf, start, i, r.status, r.pos)
    decreases k
  {
    hide Decode;
    if DecodeElems(elem, buf, start, k - 1).status == OK {
      i := k - 1;
    } else {
      i := ElemsFail(elem, buf, start, k - 1);
    }
  }

  /** A vector whose size is accepted fails only as one of its elements does, after those before it have been
      read; the elements of a vector of primitives are read at once, if all are there. */
  lemma VectorFails(elem: Ty, buf: seq<Byte>, pos: nat, n: nat) returns (i: nat)
    requires pos + 4 <= |buf| && n < 0x8000_0000 && buf[pos..pos + 4] == Word(n) && n <= |buf| - pos - 4
    requires Decode(Vector(elem), buf, pos).status != OK
    ensures var r := Decode(Vector(elem), buf, pos);
      if elem.Primitive? then r.status == BAD_VALUE && r.pos == pos + 4
      else i < n && FailsAt(elem, buf, pos + 4, i, r.status, r.pos)
  {
    FirstWord(n, buf, pos);
    hide ReadPrim, DecodeElems, Elements, FailsAt, Word;
    i := 0;
    if !elem.Primitive? {
      i := ElemsFail(elem, buf, pos + 4, n);
    }
  }

  lemma {:induction false} FieldsFail(tys: seq<Ty>, buf: seq<Byte>, start: nat, k: nat) returns (i: nat)
    requires start <= |buf| && k <= |tys| && DecodeFields(tys, buf, start, k).status != OK
    ensures i < k && DecodeFields(tys, buf, start, i).status == OK
    ensures var r, last := DecodeFields(tys, buf, start, k), Decode(tys[i], buf, DecodeFields(tys, buf, start, i).pos);
      r.status == last.status && r.pos == last.pos
    decreases k
  {
    hide Decode;
    if DecodeFields(tys, buf, start, k - 1).status == OK {
      i := k - 1;
    } else {
      i := FieldsFail(tys, buf, start, k - 1);
    }
  }

  /** So does a parcelable that is not null: as its first failing field does. */
  lemma ParcelableFails(tys: seq<Ty>, buf: seq<Byte>, pos: nat) returns (i: nat)
    requires pos + 4 <= |buf| && buf[pos..pos + 4] == [1, 0, 0, 0] && Decode(Parcelable(tys), buf, pos).status != OK
    ensures i < |tys| && DecodeFields(tys, buf, pos + 4, i).status == OK
    ensures var r := Decode(Parcelable(tys), buf, pos);
      var last := Decode(tys[i], buf, DecodeFields(tys, buf, pos + 4, i).pos);
      r.status == last.status && r.pos == last.pos
  {
    FirstWord(1, buf, pos);
    hide ReadPrim, DecodeFields;
    i := FieldsFail(tys, buf, pos + 4, |tys|);
  }
}
