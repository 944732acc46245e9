/** The wire format of parcels: what every type writes, byte by byte, and what reading it gives on
    any buffer. Multi-byte values are little-endian. */
module ParcelFormat {
  import opened ByteSequences

  const INT32_MAX := 0x7fff_ffff
  datatype Status = OK | BAD_VALUE | UNEXPECTED_NULL | NOT_ENOUGH_DATA

  datatype Prim = Bool | Int8 | Uint8 | Char16 | Int32 | Uint32 | Int64 | Uint64 | Float | Double

  /** The types built from primitives, strings, parcelables, vectors and nullables. A parcelable is
      given by the types of the fields it writes, in order. */
  datatype Ty =
    | Primitive(prim: Prim)
    | Str
    | Parcelable(fields: seq<Ty>)
    | Vector(elem: Ty)
    | Nullable(target: Ty)

  /** Values. Floating-point numbers stand for their bit patterns, strings are UTF-16 code units. */
  datatype Val =
    | Scalar(n: int)
    | Text(units: seq<nat>)
    | Struct(members: seq<Val>)
    | Items(elems: seq<Val>)
    | None
    | Some(value: Val)

  /** Only vectors, strings and parcelables can be the target of a nullable. */
  predicate Legal(ty: Ty)
    decreases ty
  {
    match ty
    case Primitive(_) => true
    case Str => true
    case Parcelable(fields) => forall f | f in fields :: Legal(f)
    case Vector(elem) => Legal(elem)
    case Nullable(target) => (target.Vector? || target.Str? || target.Parcelable?) && Legal(target)
  }

  predicate InRange(p: Prim, n: int) {
    match p
    case Bool => 0 <= n <= 1
    case Int8 => -128 <= n < 128
    case Uint8 => 0 <= n < 256
    case Char16 => 0 <= n < TWO_16
    case Int32 => -TWO_32 / 2 <= n < TWO_32 / 2
    case Int64 => -TWO_64 / 2 <= n < TWO_64 / 2
    case Uint32 => 0 <= n < TWO_32
    case Float => 0 <= n < TWO_32
    case Uint64 => 0 <= n < TWO_64
    case Double => 0 <= n < TWO_64
  }

  predicate HasType(ty: Ty, v: Val)
    decreases ty
  {
    match ty
    case Primitive(p) => v.Scalar? && InRange(p, v.n)
    case Str => v.Text? && forall u | u in v.units :: u < TWO_16
    case Parcelable(fields) =>
      v.Struct? && |v.members| == |fields| && forall i | 0 <= i < |fields| :: HasType(fields[i], v.members[i])
    case Vector(elem) => v.Items? && forall e | e in v.elems :: HasType(elem, e)
    case Nullable(target) => v.None? || (v.Some? && HasType(target, v.value))
  }

  function Padded(len: nat): (n: nat)
    ensures len <= n < len + 4 && n % 4 == 0
  {
    (len + 3) / 4 * 4
  }

  function Padding(len: nat): (s: seq<Byte>) {
    Zeros(Padded(len) - len)
  }

  // ----- primitives

  /** The bytes of a single value: everything narrower than 32 bits is widened. */
  function Width(p: Prim): (w: nat)
    ensures w == 4 || w == 8
  {
    if p in {Int64, Uint64, Double} then 8 else 4
  }

  /** The bytes of one element of a packed vector. */
  function PackedWidth(p: Prim): (w: nat)
    ensures w == 1 || w == 4 || w == 8
  {
    if p in {Int8, Uint8} then 1 else Width(p)
  }

  /** Vectors of all primitives but bool and char16 are copied as one block of memory. */
  predicate IsPacked(ty: Ty) {
    ty.Primitive? && ty.prim !in {Bool, Char16}
  }

  /** The unsigned number that stands for `n` in `w` bytes. */
  function Wrapped(n: int, w: nat): (m: nat)
    ensures m < Bound(w)
  {
    n % Bound(w)
  }

  /** The 32- or 64-bit integer to which a value is widened: an unsigned byte goes by way of a signed one. */
  function Widened(p: Prim, n: int): (k: int) {
    if p == Uint8 && n >= 128 then n - 256 else n
  }

  function Signed(n: nat, bound: nat): (k: int) {
    if 2 * n >= bound then n - bound else n
  }

  /** What a word of `Width(p)` bytes, or an element of `PackedWidth(p)` bytes, is read as. */
  function Narrowed(p: Prim, n: nat): (k: int) {
    match p
    case Bool => if n == 0 then 0 else 1
    case Int8 => Signed(n % 256, 256)
    case Uint8 => n % 256
    case Char16 => n % TWO_16
    case Int32 => Signed(n, TWO_32)
    case Int64 => Signed(n, TWO_64)
    case _ => n
  }

  function PrimBytes(p: Prim, n: int): (s: seq<Byte>)
    ensures |s| == Width(p)
  {
    Bytes(Width(p), Wrapped(Widened(p, n), Width(p)))
  }

  function PackedBytes(p: Prim, n: int): (s: seq<Byte>)
    ensures |s| == PackedWidth(p)
  {
    Bytes(PackedWidth(p), Wrapped(n, PackedWidth(p)))
  }

  function Int32Bytes(n: int): (s: seq<Byte>)
    ensures |s| == 4
  {
    PrimBytes(Int32, n)
  }

  lemma MultipleBounds(b: nat, q: int)
    ensures q >= 0 ==> b * q >= 0
    ensures q <= -2 ==> b * q <= b * -2
  {
  }

  lemma ModOnce(n: int, b: nat)
    requires b > 0 && 0 - b <= n < b
    ensures n % b == if n < 0 then n + b else n
  {
    if n < 0 {
      MultipleBounds(b, n / b);
      assert n == b * (n / b) + n % b;
      assert n / b == -1;
    }
  }

  lemma WrapRange(p: Prim, n: int, w: nat)
    requires InRange(p, n) && w == Width(p)
    ensures 0 - Bound(w) <= Widened(p, n) < Bound(w)
  {
    Bounds();
  }

  lemma PrimRoundTrip(p: Prim, n: int)
    requires InRange(p, n)
    ensures Narrowed(p, Number(PrimBytes(p, n))) == n
  {
    var w := Width(p);
    WrapRange(p, n, w);
    ModOnce(Widened(p, n), Bound(w));
    NumberOfBytes(w, Wrapped(Widened(p, n), w));
    Bounds();
    NarrowsWide(p, n, Wrapped(Widened(p, n), w));
  }

  lemma NarrowsWide(p: Prim, n: int, m: nat)
    requires InRange(p, n)
    requires var bound := if Width(p) == 8 then TWO_64 else TWO_32;
      m == if Widened(p, n) < 0 then Widened(p, n) + bound else Widened(p, n)
    ensures Narrowed(p, m) == n
  {
  }

  lemma PackedRoundTrip(p: Prim, n: int)
    requires InRange(p, n) && IsPacked(Primitive(p))
    ensures Narrowed(p, Number(PackedBytes(p, n))) == n
  {
    var w := PackedWidth(p);
    Bounds();
    assert 0 - Bound(w) <= n < Bound(w);
    ModOnce(n, Bound(w));
    NumberOfBytes(w, Wrapped(n, w));
    NarrowsPacked(p, n, Wrapped(n, w));
  }

  lemma NarrowsPacked(p: Prim, n: int, m: nat)
    requires InRange(p, n) && IsPacked(Primitive(p))
    requires var w := PackedWidth(p);
      var bound := if w == 8 then TWO_64 else if w == 4 then TWO_32 else 256;
      m == if n < 0 then n + bound else n
    ensures Narrowed(p, m) == n
  {
  }

  // ----- writing

  /** The bytes a write appends, and how it ends. A write that fails midway has already appended some. */
  datatype Written = Written(bytes: seq<Byte>, status: Status)

  const NON_NULL_PARCELABLE := 1
  const NULL_PARCELABLE := 0
  const NULL_VECTOR_SIZE := -1

  /** A block of memory copied into the parcel, zero-padded to a multiple of four bytes. */
  function Block(raw: seq<Byte>): (w: Written) {
    if |raw| > INT32_MAX then Written([], BAD_VALUE) else Written(raw + Padding(|raw|), OK)
  }

  function UnitBytes(units: seq<nat>, k: nat): (s: seq<Byte>)
    requires k <= |units|
    ensures |s| == 2 * k
  {
    if k == 0 then [] else UnitBytes(units, k - 1) + Bytes(2, units[k - 1])
  }

  /** A string is its length in code units, the units and a terminating zero unit. */
  function EncodeString(units: seq<nat>): (w: Written) {
    if |units| > INT32_MAX then Written([], BAD_VALUE)
    else
      var body := Block(UnitBytes(units + [0], |units| + 1));
      Written(Int32Bytes(|units|) + body.bytes, body.status)
  }

  function ElementWidth(p: Prim): (w: nat)
    ensures w == 1 || w == 4 || w == 8
  {
    if IsPacked(Primitive(p)) then PackedWidth(p) else Width(p)
  }

  function ElementBytes(p: Prim, n: int): (s: seq<Byte>)
    ensures |s| == ElementWidth(p)
  {
    if IsPacked(Primitive(p)) then PackedBytes(p, n) else PrimBytes(p, n)
  }

  predicate AllNumbers(vs: seq<Val>) {
    forall v | v in vs :: v.Scalar?
  }

  lemma TypedNumbers(p: Prim, vs: seq<Val>)
    requires forall v | v in vs :: HasType(Primitive(p), v)
    ensures AllNumbers(vs)
  {
    forall v | v in vs
      ensures v.Scalar?
    {
      assert HasType(Primitive(p), v);
    }
  }

  /** The first `k` elements of a vector of primitives, one after the other. */
  function Flat(p: Prim, vs: seq<Val>, k: nat): (s: seq<Byte>)
    requires AllNumbers(vs) && k <= |vs|
  {
    if k == 0 then [] else Flat(p, vs, k - 1) + ElementBytes(p, vs[k - 1].n)
  }

  function Encode(ty: Ty, v: Val): (w: Written)
    requires HasType(ty, v)
    decreases ty, 0
  {
    match ty
    case Primitive(p) => Written(PrimBytes(p, v.n), OK)
    case Str => EncodeString(v.units)
    case Parcelable(fields) =>
      var body := EncodeFields(fields, v.members, |fields|);
      Written(Int32Bytes(NON_NULL_PARCELABLE) + body.bytes, body.status)
    case Vector(elem) =>
      if |v.elems| > INT32_MAX then Written([], BAD_VALUE)
      else
        var body :=
          if elem.Primitive? then
            TypedNumbers(elem.prim, v.elems);
            Block(Flat(elem.prim, v.elems, |v.elems|))
          else EncodeElems(elem, v.elems, |v.elems|);
        Written(Int32Bytes(|v.elems|) + body.bytes, body.status)
    case Nullable(target) =>
      if v.None? then Written(Int32Bytes(NullMarker(target)), OK) else Encode(target, v.value)
  }

  /** The word that stands for null: never the first word of a value. */
  function NullMarker(target: Ty): (n: int) {
    if target.Parcelable? then NULL_PARCELABLE else NULL_VECTOR_SIZE
  }

  /** The first `k` elements in turn, up to the first that fails. */
  function EncodeElems(elem: Ty, vs: seq<Val>, k: nat): (w: Written)
    requires k <= |vs| && forall e | e in vs :: HasType(elem, e)
    decreases elem, 1, k
  {
    if k == 0 then Written([], OK)
    else
      var done := EncodeElems(elem, vs, k - 1);
      if done.status != OK then done
      else
        var last := Encode(elem, vs[k - 1]);
        Written(done.bytes + last.bytes, last.status)
  }

  function EncodeFields(tys: seq<Ty>, vs: seq<Val>, k: nat): (w: Written)
    requires k <= |tys| == |vs| && forall i | 0 <= i < |tys| :: HasType(tys[i], vs[i])
    decreases tys, 1, k
  {
    if k == 0 then Written([], OK)
    else
      var done := EncodeFields(tys, vs, k - 1);
      if done.status != OK then done
      else
        var last := Encode(tys[k - 1], vs[k - 1]);
        Written(done.bytes + last.bytes, last.status)
  }

  // ----- reading

  /** How a read ends, what it gives if it succeeds, and where it leaves the cursor. */
  datatype Read<T> = Read(status: Status, val: T, pos: nat)

  function ReadPrim(p: Prim, buf: seq<Byte>, pos: nat): (r: Read<int>)
    requires pos <= |buf|
    ensures pos <= r.pos <= |buf|
  {
    var w := Width(p);
    if pos + w <= |buf| then Read(OK, Narrowed(p, Number(Piece(buf, pos, w))), pos + w)
    else Read(NOT_ENOUGH_DATA, 0, pos)
  }

  /** Whether a padded block of `len` bytes can be taken at the cursor. */
  predicate CanTake(len: nat, buf: seq<Byte>, pos: nat) {
    len <= INT32_MAX && pos + Padded(len) <= |buf|
  }

  function UnitAt(buf: seq<Byte>, pos: nat, i: nat): (u: nat)
    requires pos + 2 * (i + 1) <= |buf|
  {
    Number(Piece(buf, pos + 2 * i, 2))
  }

  function Units(buf: seq<Byte>, pos: nat, n: nat): (us: seq<nat>)
    requires pos + 2 * n <= |buf|
    ensures |us| == n
  {
    seq(n, i requires 0 <= i < n => UnitAt(buf, pos, i))
  }

  function ReadString(buf: seq<Byte>, pos: nat): (r: Read<seq<nat>>)
    requires pos <= |buf|
    ensures pos <= r.pos <= |buf|
  {
    var size := ReadPrim(Int32, buf, pos);
    if 0 <= size.val < INT32_MAX && CanTake(2 * (size.val + 1), buf, size.pos) then
      var end := size.pos + Padded(2 * (size.val + 1));
      if UnitAt(buf, size.pos, size.val) == 0 then
        Read(OK, Units(buf, size.pos, size.val), end)
      else Read(UNEXPECTED_NULL, [], end)
    else Read(UNEXPECTED_NULL, [], size.pos)
  }

  /** Element `i` of a block of primitives. */
  function ElementAt(p: Prim, buf: seq<Byte>, pos: nat, i: nat): (n: int)
    requires pos + ElementWidth(p) * (i + 1) <= |buf|
  {
    var w := ElementWidth(p);
    assert pos + w * i + w == pos + w * (i + 1);
    Narrowed(p, Number(Piece(buf, pos + w * i, w)))
  }

  lemma ElementFits(w: nat, i: nat, n: nat)
    requires i < n
    ensures w * (i + 1) <= w * n
  {
  }

  function Elements(p: Prim, buf: seq<Byte>, pos: nat, n: nat): (vs: seq<Val>)
    requires pos + ElementWidth(p) * n <= |buf|
    ensures |vs| == n
  {
    seq(n, i requires 0 <= i < n => ElementFits(ElementWidth(p), i, n); Scalar(ElementAt(p, buf, pos, i)))
  }

  function Decode(ty: Ty, buf: seq<Byte>, pos: nat): (r: Read<Val>)
    requires pos <= |buf|
    ensures pos <= r.pos <= |buf|
    decreases ty, 0
  {
    match ty
    case Primitive(p) =>
      var r := ReadPrim(p, buf, pos);
      Read(r.status, Scalar(r.val), r.pos)
    case Str =>
      var r := ReadString(buf, pos);
      Read(r.status, Text(r.val), r.pos)
    case Parcelable(fields) =>
      var present := ReadPrim(Int32, buf, pos);
      if present.status != OK then Read(present.status, None, present.pos)
      else if present.val != NON_NULL_PARCELABLE then Read(UNEXPECTED_NULL, None, present.pos)
      else
        var r := DecodeFields(fields, buf, present.pos, |fields|);
        Read(r.status, Struct(r.val), r.pos)
    case Vector(elem) =>
      var size := ReadPrim(Int32, buf, pos);
      if size.status != OK then Read(size.status, None, size.pos)
      else if size.val < 0 then Read(UNEXPECTED_NULL, None, size.pos)
      else if size.val > |buf| - size.pos then Read(BAD_VALUE, None, size.pos)
      else if elem.Primitive? then
        var len := ElementWidth(elem.prim) * size.val;
        if CanTake(len, buf, size.pos) then
          Read(OK, Items(Elements(elem.prim, buf, size.pos, size.val)), size.pos + Padded(len))
        else Read(BAD_VALUE, None, size.pos)
      else
        var r := DecodeElems(elem, buf, size.pos, size.val);
        Read(r.status, Items(r.val), r.pos)
    case Nullable(target) =>
      var peek := ReadPrim(Int32, buf, pos);
      if peek.status != OK then Read(peek.status, None, peek.pos)
      else if peek.val == NullMarker(target) then Read(OK, None, peek.pos)
      else
        var r := Decode(target, buf, pos);
        Read(r.status, Some(r.val), r.pos)
  }

  function DecodeElems(elem: Ty, buf: seq<Byte>, pos: nat, k: nat): (r: Read<seq<Val>>)
    requires pos <= |buf|
    ensures pos <= r.pos <= |buf| && (r.status == OK ==> |r.val| == k)
    decreases elem, 1, k
  {
    if k == 0 then Read(OK, [], pos)
    else
      var done := DecodeElems(elem, buf, pos, k - 1);
      if done.status != OK then done
      else
        var last := Decode(elem, buf, done.pos);
        Read(last.status, done.val + [last.val], last.pos)
  }

  function DecodeFields(tys: seq<Ty>, buf: seq<Byte>, pos: nat, k: nat): (r: Read<seq<Val>>)
    requires pos <= |buf| && k <= |tys|
    ensures pos <= r.pos <= |buf| && (r.status == OK ==> |r.val| == k)
    decreases tys, 1, k
  {
    if k == 0 then Read(OK, [], pos)
    else
      var done := DecodeFields(tys, buf, pos, k - 1);
      if done.status != OK then done
      else
        var last := Decode(tys[k - 1], buf, done.pos);
        Read(last.status, done.val + [last.val], last.pos)
  }

  // ----- which values can be written

  /** The limits a value must respect at every level: no vector, string or block of memory is larger
      than a 32-bit signed integer can say. */
  predicate Fits(ty: Ty, v: Val)
    requires HasType(ty, v)
    decreases ty
  {
    match ty
    case Primitive(_) => true
    case Str => 2 * (|v.units| + 1) <= INT32_MAX
    case Parcelable(fields) => forall i | 0 <= i < |fields| :: Fits(fields[i], v.members[i])
    case Vector(elem) =>
      && |v.elems| <= INT32_MAX
      && (elem.Primitive? ==> ElementWidth(elem.prim) * |v.elems| <= INT32_MAX)
      && forall i | 0 <= i < |v.elems| :: Fits(elem, v.elems[i])
    case Nullable(target) => v.Some? ==> Fits(target, v.value)
  }

  lemma {:induction false} FlatLength(p: Prim, vs: seq<Val>, k: nat)
    requires AllNumbers(vs) && k <= |vs|
    ensures |Flat(p, vs, k)| == ElementWidth(p) * k
  {
    hide ElementWidth, ElementBytes;
    if k > 0 {
      FlatLength(p, vs, k - 1);
    }
  }

  /** Writing succeeds exactly on the values that fit. */
  lemma {:induction false} WriteSucceeds(ty: Ty, v: Val)
    requires HasType(ty, v)
    ensures Encode(ty, v).status == OK <==> Fits(ty, v)
    decreases ty, 0
  {
    match ty
    case Primitive(_) =>
    case Str =>
    case Parcelable(fields) => FieldsSucceed(fields, v.members, |fields|);
    case Vector(elem) =>
      if elem.Primitive? {
        TypedNumbers(elem.prim, v.elems);
        FlatLength(elem.prim, v.elems, |v.elems|);
        forall i | 0 <= i < |v.elems|
          ensures Fits(elem, v.elems[i])
        {
          assert HasType(elem, v.elems[i]);
        }
      } else {
        ElemsSucceed(elem, v.elems, |v.elems|);
      }
    case Nullable(target) =>
      if v.Some? {
        WriteSucceeds(target, v.value);
      }
  }

  lemma {:induction false} ElemsSucceed(elem: Ty, vs: seq<Val>, k: nat)
    requires k <= |vs| && forall e | e in vs :: HasType(elem, e)
    ensures EncodeElems(elem, vs, k).status == OK <==> forall i | 0 <= i < k :: Fits(elem, vs[i])
    decreases elem, 1, k
  {
    if k > 0 {
      hide Encode, HasType, Fits;
      ElemsSucceed(elem, vs, k - 1);
      WriteSucceeds(elem, vs[k - 1]);
    }
  }

  lemma {:induction false} FieldsSucceed(tys: seq<Ty>, vs: seq<Val>, k: nat)
    requires k <= |tys| == |vs| && forall i | 0 <= i < |tys| :: HasType(tys[i], vs[i])
    ensures EncodeFields(tys, vs, k).status == OK <==> forall i | 0 <= i < k :: Fits(tys[i], vs[i])
    decreases tys, 1, k
  {
    if k > 0 {
      hide Encode, HasType, Fits;
      FieldsSucceed(tys, vs, k - 1);
      WriteSucceeds(tys[k - 1], vs[k - 1]);
    }
  }

  /** Once an element cannot be written, the rest is not. */
  lemma {:induction false} ElemsStop(elem: Ty, vs: seq<Val>, k: nat, n: nat)
    requires k <= n <= |vs| && forall e | e in vs :: HasType(elem, e)
    requires EncodeElems(elem, vs, k).status != OK
    ensures EncodeElems(elem, vs, n) == EncodeElems(elem, vs, k)
    decreases n
  {
    if k < n {
      ElemsStop(elem, vs, k, n - 1);
    }
  }

  lemma {:induction false} FieldsStop(tys: seq<Ty>, vs: seq<Val>, k: nat, n: nat)
    requires k <= n <= |tys| == |vs| && forall i | 0 <= i < |tys| :: HasType(tys[i], vs[i])
    requires EncodeFields(tys, vs, k).status != OK
    ensures EncodeFields(tys, vs, n) == EncodeFields(tys, vs, k)
    decreases n
  {
    if k < n {
      FieldsStop(tys, vs, k, n - 1);
    }
  }

  // ----- the shape of what is written

  /** A whole number of words, and at least `k` of them. */
  predicate Words(len: nat, k: nat) {
    len % 4 == 0 && len >= 4 * k
  }

  lemma MoreWords(a: nat, j: nat, b: nat, k: nat)
    requires Words(a, j) && Words(b, k)
    ensures Words(a + b, j + k)
  {
  }

  lemma BlockWords(raw: seq<Byte>)
    requires Block(raw).status == OK
    ensures Words(|Block(raw).bytes|, 0)
    ensures |Block(raw).bytes| == Padded(|raw|)
  {
  }

  lemma CountedBlockWords(n: int, raw: seq<Byte>)
    requires Block(raw).status == OK
    ensures Words(|Int32Bytes(n) + Block(raw).bytes|, 1)
  {
    BlockWords(raw);
  }

  /** Every encoding is a positive, whole number of words. */
  lemma {:induction false} EncodingWords(ty: Ty, v: Val)
    requires HasType(ty, v) && Encode(ty, v).status == OK
    ensures Words(|Encode(ty, v).bytes|, 1)
    decreases ty, 0
  {
    hide EncodeString, EncodeFields, EncodeElems;
    match ty
    case Primitive(_) =>
    case Str => StringWords(v.units);
    case Parcelable(fields) =>
      FieldsWords(fields, v.members, |fields|);
      MoreWords(4, 1, |EncodeFields(fields, v.members, |fields|).bytes|, |fields|);
    case Vector(elem) =>
      if elem.Primitive? {
        PrimVectorWords(elem.prim, v);
      } else {
        VectorWords(elem, v.elems);
      }
    case Nullable(target) =>
      if v.Some? {
        EncodingWords(target, v.value);
      }
  }

  lemma StringWords(units: seq<nat>)
    requires EncodeString(units).status == OK
    ensures Words(|EncodeString(units).bytes|, 1)
  {
    CountedBlockWords(|units|, UnitBytes(units + [0], |units| + 1));
  }

  lemma PrimVectorWords(p: Prim, v: Val)
    requires HasType(Vector(Primitive(p)), v) && Encode(Vector(Primitive(p)), v).status == OK
    ensures Words(|Encode(Vector(Primitive(p)), v).bytes|, 1)
  {
    hide Flat, Block, Words, Int32Bytes;
    TypedNumbers(p, v.elems);
    CountedBlockWords(|v.elems|, Flat(p, v.elems, |v.elems|));
  }

  lemma {:induction false} VectorWords(elem: Ty, vs: seq<Val>)
    requires (forall e | e in vs :: HasType(elem, e)) && EncodeElems(elem, vs, |vs|).status == OK
    ensures Words(|Int32Bytes(|vs|) + EncodeElems(elem, vs, |vs|).bytes|, 1)
    decreases elem, 2
  {
    hide EncodeElems, HasType, Int32Bytes;
    ElemsWords(elem, vs, |vs|);
    MoreWords(4, 1, |EncodeElems(elem, vs, |vs|).bytes|, |vs|);
  }

  lemma {:induction false} ElemsWords(elem: Ty, vs: seq<Val>, k: nat)
    requires k <= |vs| && forall e | e in vs :: HasType(elem, e)
    requires EncodeElems(elem, vs, k).status == OK
    ensures Words(|EncodeElems(elem, vs, k).bytes|, k)
    decreases elem, 1, k
  {
    if k > 0 {
      hide Encode, HasType, Words;
      ElemsWords(elem, vs, k - 1);
      EncodingWords(elem, vs[k - 1]);
      MoreWords(|EncodeElems(elem, vs, k - 1).bytes|, k - 1, |Encode(elem, vs[k - 1]).bytes|, 1);
    }
  }

  lemma {:induction false} FieldsWords(tys: seq<Ty>, vs: seq<Val>, k: nat)
    requires k <= |tys| == |vs| && forall i | 0 <= i < |tys| :: HasType(tys[i], vs[i])
    requires EncodeFields(tys, vs, k).status == OK
    ensures Words(|EncodeFields(tys, vs, k).bytes|, k)
    decreases tys, 1, k
  {
    if k > 0 {
      hide Encode, HasType, Words, Fits;
      FieldsWords(tys, vs, k - 1);
      EncodingWords(tys[k - 1], vs[k - 1]);
      MoreWords(|EncodeFields(tys, vs, k - 1).bytes|, k - 1, |Encode(tys[k - 1], vs[k - 1]).bytes|, 1);
    }
  }

  /** The first word of a value that can be the target of a nullable, as a signed integer. */
  function FirstWord(ty: Ty, v: Val): (n: int)
    requires HasType(ty, v) && (ty.Vector? || ty.Str? || ty.Parcelable?)
  {
    match ty
    case Parcelable(_) => NON_NULL_PARCELABLE
    case Str => |v.units|
    case Vector(_) => |v.elems|
  }

  /** A value never starts with the word that stands for null. */
  lemma FirstWordIsNotNull(ty: Ty, v: Val)
    requires HasType(ty, v) && (ty.Vector? || ty.Str? || ty.Parcelable?) && Encode(ty, v).status == OK
    ensures Int32Bytes(FirstWord(ty, v)) <= Encode(ty, v).bytes
    ensures Narrowed(Int32, Number(Encode(ty, v).bytes[..4])) == FirstWord(ty, v) != NullMarker(ty)
  {
    PrimRoundTrip(Int32, FirstWord(ty, v));
    assert Encode(ty, v).bytes[..4] == Int32Bytes(FirstWord(ty, v));
  }

  // ----- reading back what was written

  lemma ReadPrimBack(p: Prim, n: int, buf: seq<Byte>, pos: nat)
    requires InRange(p, n) && pos + Width(p) <= |buf| && buf[pos..pos + Width(p)] == PrimBytes(p, n)
    ensures ReadPrim(p, buf, pos) == Read(OK, n, pos + Width(p))
  {
    PrimRoundTrip(p, n);
  }

  lemma {:induction false} UnitBytesAt(units: seq<nat>, k: nat, i: nat)
    requires i < k <= |units|
    ensures Piece(UnitBytes(units, k), 2 * i, 2) == Bytes(2, units[i])
  {
    var before, last := UnitBytes(units, k - 1), Bytes(2, units[k - 1]);
    if i < k - 1 {
      UnitBytesAt(units, k - 1, i);
      PieceOfLeft(before, last, 2 * i, 2);
    } else {
      PieceOfRight(before, last);
    }
  }

  lemma PieceStands(raw: seq<Byte>, unit: seq<Byte>, buf: seq<Byte>, pos: nat, i: nat, n: nat)
    requires |raw| == 2 * n && At(raw, buf, pos) && i < n && Piece(raw, 2 * i, 2) == unit
    ensures pos + 2 * (i + 1) <= |buf| && Piece(buf, pos + 2 * i, 2) == unit
  {
    AtPiece(raw, buf, pos, 2 * i, 2);
  }

  lemma UnitStands(units: seq<nat>, raw: seq<Byte>, unit: seq<Byte>, buf: seq<Byte>, pos: nat, i: nat)
    requires raw == UnitBytes(units, |units|) && At(raw, buf, pos) && i < |units| && unit == Bytes(2, units[i])
    ensures pos + 2 * (i + 1) <= |buf| && Piece(buf, pos + 2 * i, 2) == unit
  {
    UnitBytesAt(units, |units|, i);
    PieceStands(raw, unit, buf, pos, i, |units|);
  }

  lemma UnitBack(buf: seq<Byte>, pos: nat, i: nat, u: nat)
    requires pos + 2 * (i + 1) <= |buf| && Piece(buf, pos + 2 * i, 2) == Bytes(2, u) && u < TWO_16
    ensures UnitAt(buf, pos, i) == u
  {
    Bounds();
    NumberOfBytes(2, u);
  }

  lemma UnitComesBack(units: seq<nat>, raw: seq<Byte>, buf: seq<Byte>, pos: nat, i: nat)
    requires raw == UnitBytes(units, |units|) && At(raw, buf, pos) && i < |units| && units[i] < TWO_16
    ensures pos + 2 * (i + 1) <= |buf| && UnitAt(buf, pos, i) == units[i]
  {
    UnitStands(units, raw, Bytes(2, units[i]), buf, pos, i);
    UnitBack(buf, pos, i, units[i]);
  }

  lemma StringParts(units: seq<nat>, buf: seq<Byte>, pos: nat)
    requires EncodeString(units).status == OK && At(EncodeString(units).bytes, buf, pos)
    ensures At(Int32Bytes(|units|), buf, pos) && At(UnitBytes(units + [0], |units| + 1), buf, pos + 4)
    ensures pos + 4 + Padded(2 * (|units| + 1)) == pos + |EncodeString(units).bytes| <= |buf|
  {
    var raw := UnitBytes(units + [0], |units| + 1);
    BlockWords(raw);
    AtParts(Int32Bytes(|units|), Block(raw).bytes, buf, pos);
    AtParts(raw, Padding(|raw|), buf, pos + 4);
  }

  lemma StringUnits(units: seq<nat>, terminated: seq<nat>, raw: seq<Byte>, buf: seq<Byte>, pos: nat)
    requires forall u | u in units :: u < TWO_16
    requires terminated == units + [0] && raw == UnitBytes(terminated, |terminated|) && At(raw, buf, pos)
    ensures pos + 2 * (|units| + 1) <= |buf|
    ensures UnitAt(buf, pos, |units|) == 0 && Units(buf, pos, |units|) == units
  {
    UnitComesBack(terminated, raw, buf, pos, |units|);
    forall i | 0 <= i < |units|
      ensures UnitAt(buf, pos, i) == units[i]
    {
      assert units[i] in units;
      UnitComesBack(terminated, raw, buf, pos, i);
    }
  }

  lemma StringRoundTrip(units: seq<nat>, buf: seq<Byte>, pos: nat)
    requires forall u | u in units :: u < TWO_16
    requires EncodeString(units).status == OK && At(EncodeString(units).bytes, buf, pos)
    ensures ReadString(buf, pos) == Read(OK, units, pos + |EncodeString(units).bytes|)
  {
    hide UnitBytes, UnitAt, Units;
    StringParts(units, buf, pos);
    ReadPrimBack(Int32, |units|, buf, pos);
    StringUnits(units, units + [0], UnitBytes(units + [0], |units| + 1), buf, pos + 4);
  }

  lemma {:induction false} FlatAt(p: Prim, vs: seq<Val>, k: nat, i: nat)
    requires AllNumbers(vs) && i < k <= |vs|
    ensures ElementWidth(p) * i + ElementWidth(p) <= |Flat(p, vs, k)|
    ensures Piece(Flat(p, vs, k), ElementWidth(p) * i, ElementWidth(p)) == ElementBytes(p, vs[i].n)
  {
    hide ElementWidth, ElementBytes;
    var w := ElementWidth(p);
    FlatLength(p, vs, k - 1);
    var before, last := Flat(p, vs, k - 1), ElementBytes(p, vs[k - 1].n);
    if i < k - 1 {
      FlatAt(p, vs, k - 1, i);
      PieceOfLeft(before, last, w * i, w);
    } else {
      PieceOfRight(before, last);
    }
  }

  lemma ElementRoundTrip(p: Prim, n: int)
    requires InRange(p, n)
    ensures Narrowed(p, Number(ElementBytes(p, n))) == n
  {
    if IsPacked(Primitive(p)) {
      PackedRoundTrip(p, n);
    } else {
      PrimRoundTrip(p, n);
    }
  }

  lemma ElementStands(p: Prim, vs: seq<Val>, buf: seq<Byte>, pos: nat, i: nat)
    requires AllNumbers(vs) && i < |vs| && At(Flat(p, vs, |vs|), buf, pos)
    ensures var w := ElementWidth(p);
      pos + w * i + w <= |buf| && Piece(buf, pos + w * i, w) == ElementBytes(p, vs[i].n)
  {
    hide Flat, ElementBytes, ElementWidth;
    var w := ElementWidth(p);
    FlatAt(p, vs, |vs|, i);
    AtPiece(Flat(p, vs, |vs|), buf, pos, w * i, w);
  }

  lemma ElementBack(p: Prim, buf: seq<Byte>, pos: nat, i: nat, n: int)
    requires InRange(p, n)
    requires var w := ElementWidth(p);
      pos + w * i + w <= |buf| && Piece(buf, pos + w * i, w) == ElementBytes(p, n)
    ensures pos + ElementWidth(p) * (i + 1) <= |buf| && ElementAt(p, buf, pos, i) == n
  {
    ElementRoundTrip(p, n);
  }

  lemma ElementsRoundTrip(p: Prim, vs: seq<Val>, buf: seq<Byte>, pos: nat)
    requires AllNumbers(vs) && forall v | v in vs :: InRange(p, v.n)
    requires At(Flat(p, vs, |vs|), buf, pos)
    ensures pos + ElementWidth(p) * |vs| <= |buf|
    ensures Elements(p, buf, pos, |vs|) == vs
  {
    FlatLength(p, vs, |vs|);
    forall i | 0 <= i < |vs|
      ensures Elements(p, buf, pos, |vs|)[i] == vs[i]
    {
      ElementStands(p, vs, buf, pos, i);
      ElementBack(p, buf, pos, i, vs[i].n);
    }
  }

  /** The central law: wherever the encoding of a value stands in a buffer, reading there gives the
      value back and moves the cursor exactly past the encoding. */
  lemma {:induction false} RoundTrip(ty: Ty, v: Val, buf: seq<Byte>, pos: nat)
    requires Legal(ty) && HasType(ty, v) && Encode(ty, v).status == OK && At(Encode(ty, v).bytes, buf, pos)
    ensures Decode(ty, buf, pos) == Read(OK, v, pos + |Encode(ty, v).bytes|)
    decreases ty, 0
  {
    match ty
    case Primitive(p) => ReadPrimBack(p, v.n, buf, pos);
    case Str => StringRoundTrip(v.units, buf, pos);
    case Parcelable(fields) => ParcelableRoundTrip(fields, v, buf, pos);
    case Vector(elem) =>
      if elem.Primitive? {
        PrimVectorRoundTrip(elem.prim, v, buf, pos);
      } else {
        VectorRoundTrip(elem, v, buf, pos);
      }
    case Nullable(target) =>
      if v.None? {
        ReadPrimBack(Int32, NullMarker(target), buf, pos);
      } else {
        PeekIsNotNull(target, v.value, buf, pos);
        RoundTrip(target, v.value, buf, pos);
      }
  }

  lemma PeekIsNotNull(ty: Ty, v: Val, buf: seq<Byte>, pos: nat)
    requires HasType(ty, v) && (ty.Vector? || ty.Str? || ty.Parcelable?)
    requires Encode(ty, v).status == OK && At(Encode(ty, v).bytes, buf, pos)
    ensures ReadPrim(Int32, buf, pos).status == OK && ReadPrim(Int32, buf, pos).val != NullMarker(ty)
  {
    FirstWordIsNotNull(ty, v);
    AtPiece(Encode(ty, v).bytes, buf, pos, 0, 4);
  }

  lemma {:induction false} ParcelableRoundTrip(fields: seq<Ty>, v: Val, buf: seq<Byte>, pos: nat)
    requires var ty := Parcelable(fields);
      Legal(ty) && HasType(ty, v) && Encode(ty, v).status == OK && At(Encode(ty, v).bytes, buf, pos)
    ensures Decode(Parcelable(fields), buf, pos) == Read(OK, v, pos + |Encode(Parcelable(fields), v).bytes|)
    decreases fields, 2
  {
    var body := EncodeFields(fields, v.members, |fields|);
    AtParts(Int32Bytes(NON_NULL_PARCELABLE), body.bytes, buf, pos);
    ReadPrimBack(Int32, NON_NULL_PARCELABLE, buf, pos);
    FieldsRoundTrip(fields, v.members, buf, pos + 4, |fields|);
    assert v.members[..|fields|] == v.members;
  }

  lemma PrimVectorParts(p: Prim, vs: seq<Val>, buf: seq<Byte>, pos: nat)
    requires AllNumbers(vs) && |vs| <= INT32_MAX
    requires var body := Block(Flat(p, vs, |vs|));
      body.status == OK && At(Int32Bytes(|vs|) + body.bytes, buf, pos)
    ensures At(Int32Bytes(|vs|), buf, pos) && At(Flat(p, vs, |vs|), buf, pos + 4)
    ensures var len := ElementWidth(p) * |vs|;
      CanTake(len, buf, pos + 4) && Padded(len) == |Block(Flat(p, vs, |vs|)).bytes| && |vs| <= len
  {
    hide Flat, At, Int32Bytes;
    var flat := Flat(p, vs, |vs|);
    FlatLength(p, vs, |vs|);
    hide AllNumbers;
    BlockWords(flat);
    AtParts(Int32Bytes(|vs|), Block(flat).bytes, buf, pos);
    AtParts(flat, Padding(|flat|), buf, pos + 4);
  }

  lemma PrimVectorRead(p: Prim, vs: seq<Val>, buf: seq<Byte>, pos: nat)
    requires pos <= |buf| && ReadPrim(Int32, buf, pos) == Read(OK, |vs|, pos + 4)
    requires |vs| <= ElementWidth(p) * |vs| && CanTake(ElementWidth(p) * |vs|, buf, pos + 4)
    requires Elements(p, buf, pos + 4, |vs|) == vs
    ensures Decode(Vector(Primitive(p)), buf, pos) == Read(OK, Items(vs), pos + 4 + Padded(ElementWidth(p) * |vs|))
  {
  }

  lemma PrimVectorRoundTrip(p: Prim, v: Val, buf: seq<Byte>, pos: nat)
    requires var ty := Vector(Primitive(p));
      HasType(ty, v) && Encode(ty, v).status == OK && At(Encode(ty, v).bytes, buf, pos)
    ensures Decode(Vector(Primitive(p)), buf, pos) == Read(OK, v, pos + |Encode(Vector(Primitive(p)), v).bytes|)
  {
    var vs := v.elems;
    TypedNumbers(p, vs);
    PrimVectorParts(p, vs, buf, pos);
    ReadPrimBack(Int32, |vs|, buf, pos);
    forall e | e in vs
      ensures InRange(p, e.n)
    {
      assert HasType(Primitive(p), e);
    }
    ElementsRoundTrip(p, vs, buf, pos + 4);
    PrimVectorRead(p, vs, buf, pos);
  }

  lemma VectorParts(n: nat, body: seq<Byte>, buf: seq<Byte>, pos: nat)
    requires Words(|body|, n) && At(Int32Bytes(n) + body, buf, pos)
    ensures At(Int32Bytes(n), buf, pos) && At(body, buf, pos + 4) && pos + 4 + n <= |buf|
  {
    hide Int32Bytes;
    AtParts(Int32Bytes(n), body, buf, pos);
  }

  lemma VectorRead(elem: Ty, vs: seq<Val>, buf: seq<Byte>, pos: nat, end: nat)
    requires !elem.Primitive? && pos + 4 + |vs| <= |buf| && ReadPrim(Int32, buf, pos) == Read(OK, |vs|, pos + 4)
    requires DecodeElems(elem, buf, pos + 4, |vs|) == Read(OK, vs, end)
    ensures Decode(Vector(elem), buf, pos) == Read(OK, Items(vs), end)
  {
    hide DecodeElems;
  }

  lemma {:induction false} VectorRoundTrip(elem: Ty, v: Val, buf: seq<Byte>, pos: nat)
    requires !elem.Primitive?
    requires var ty := Vector(elem);
      Legal(ty) && HasType(ty, v) && Encode(ty, v).status == OK && At(Encode(ty, v).bytes, buf, pos)
    ensures Decode(Vector(elem), buf, pos) == Read(OK, v, pos + |Encode(Vector(elem), v).bytes|)
    decreases elem, 2
  {
    var vs := v.elems;
    hide Decode, EncodeElems, DecodeElems, At;
    ElemsWords(elem, vs, |vs|);
    VectorParts(|vs|, EncodeElems(elem, vs, |vs|).bytes, buf, pos);
    assert buf[pos..pos + 4] == Int32Bytes(|vs|) by {
      AtIsSlice(Int32Bytes(|vs|), buf, pos);
    }
    ReadPrimBack(Int32, |vs|, buf, pos);
    ElemsRoundTrip(elem, vs, buf, pos + 4, |vs|);
    assert vs[..|vs|] == vs;
    VectorRead(elem, vs, buf, pos, pos + |Encode(Vector(elem), v).bytes|);
  }

  lemma ElemParts(elem: Ty, vs: seq<Val>, buf: seq<Byte>, pos: nat, k: nat)
    requires 0 < k <= |vs| && forall e | e in vs :: HasType(elem, e)
    requires EncodeElems(elem, vs, k).status == OK && At(EncodeElems(elem, vs, k).bytes, buf, pos)
    ensures var done, last := EncodeElems(elem, vs, k - 1), Encode(elem, vs[k - 1]);
      && done.status == OK && last.status == OK
      && EncodeElems(elem, vs, k).bytes == done.bytes + last.bytes
      && At(done.bytes, buf, pos) && At(last.bytes, buf, pos + |done.bytes|)
  {
    hide Encode, HasType, At;
    AtParts(EncodeElems(elem, vs, k - 1).bytes, Encode(elem, vs[k - 1]).bytes, buf, pos);
  }

  lemma {:induction false} ElemsRoundTrip(elem: Ty, vs: seq<Val>, buf: seq<Byte>, pos: nat, k: nat)
    requires Legal(elem) && k <= |vs| && pos <= |buf| && forall e | e in vs :: HasType(elem, e)
    requires EncodeElems(elem, vs, k).status == OK && At(EncodeElems(elem, vs, k).bytes, buf, pos)
    ensures DecodeElems(elem, buf, pos, k) == Read(OK, vs[..k], pos + |EncodeElems(elem, vs, k).bytes|)
    decreases elem, 1, k
  {
    hide Encode, Decode, HasType, Legal, At;
    if k > 0 {
      hide EncodeElems;
      ElemParts(elem, vs, buf, pos, k);
      ElemsRoundTrip(elem, vs, buf, pos, k - 1);
      RoundTrip(elem, vs[k - 1], buf, pos + |EncodeElems(elem, vs, k - 1).bytes|);
      assert vs[..k] == vs[..k - 1] + [vs[k - 1]];
    }
  }

  lemma FieldParts(tys: seq<Ty>, vs: seq<Val>, buf: seq<Byte>, pos: nat, k: nat)
    requires 0 < k <= |tys| == |vs| && forall i | 0 <= i < |tys| :: HasType(tys[i], vs[i])
    requires EncodeFields(tys, vs, k).status == OK && At(EncodeFields(tys, vs, k).bytes, buf, pos)
    ensures var done, last := EncodeFields(tys, vs, k - 1), Encode(tys[k - 1], vs[k - 1]);
      && done.status == OK && last.status == OK
      && EncodeFields(tys, vs, k).bytes == done.bytes + last.bytes
      && At(done.bytes, buf, pos) && At(last.bytes, buf, pos + |done.bytes|)
  {
    hide Encode, HasType, At;
    AtParts(EncodeFields(tys, vs, k - 1).bytes, Encode(tys[k - 1], vs[k - 1]).bytes, buf, pos);
  }

  /** Values of any types written one after the other are read back in order. */
  lemma {:induction false} FieldsRoundTrip(tys: seq<Ty>, vs: seq<Val>, buf: seq<Byte>, pos: nat, k: nat)
    requires k <= |tys| == |vs| && pos <= |buf|
    requires forall i | 0 <= i < |tys| :: Legal(tys[i]) && HasType(tys[i], vs[i])
    requires EncodeFields(tys, vs, k).status == OK && At(EncodeFields(tys, vs, k).bytes, buf, pos)
    ensures DecodeFields(tys, buf, pos, k) == Read(OK, vs[..k], pos + |EncodeFields(tys, vs, k).bytes|)
    decreases tys, 1, k
  {
    hide Encode, Decode, HasType, Legal, At;
    if k > 0 {
      hide EncodeFields;
      FieldParts(tys, vs, buf, pos, k);
      FieldsRoundTrip(tys, vs, buf, pos, k - 1);
      RoundTrip(tys[k - 1], vs[k - 1], buf, pos + |EncodeFields(tys, vs, k - 1).bytes|);
      assert vs[..k] == vs[..k - 1] + [vs[k - 1]];
    }
  }

  /** No encoding is a proper prefix of another of the same type, and no two values share one. */
  lemma EncodingsAreUnambiguous(ty: Ty, v: Val, w: Val, afterV: seq<Byte>, afterW: seq<Byte>)
    requires Legal(ty) && HasType(ty, v) && HasType(ty, w)
    requires Encode(ty, v).status == OK && Encode(ty, w).status == OK
    requires Encode(ty, v).bytes + afterV == Encode(ty, w).bytes + afterW
    ensures v == w && afterV == afterW
  {
    hide Encode, Decode, HasType, Legal;
    var buf := Encode(ty, v).bytes + afterV;
    assert buf[..|Encode(ty, v).bytes|] == Encode(ty, v).bytes;
    assert buf[..|Encode(ty, w).bytes|] == Encode(ty, w).bytes;
    RoundTrip(ty, v, buf, 0);
    RoundTrip(ty, w, buf, 0);
    assert afterV == buf[|Encode(ty, v).bytes|..] == afterW;
  }

  // ----- reading an arbitrary buffer

  /** No vector or string at any depth is longer than the bytes that were left after its size, when
      `left` bytes hold the whole value. */
  predicate Within(ty: Ty, v: Val, left: int)
    requires HasType(ty, v)
    decreases ty
  {
    match ty
    case Primitive(_) => left >= Width(ty.prim)
    case Str => 2 * |v.units| <= left - 4
    case Parcelable(fields) =>
      left >= 4 && forall i | 0 <= i < |fields| :: Within(fields[i], v.members[i], left - 4)
    case Vector(elem) =>
      |v.elems| <= left - 4 && forall i | 0 <= i < |v.elems| && !elem.Primitive? :: Within(elem, v.elems[i], left - 4)
    case Nullable(target) => left >= 4 && (v.Some? ==> Within(target, v.value, left))
  }

  lemma {:induction false} WithinMore(ty: Ty, v: Val, few: int, many: int)
    requires HasType(ty, v) && few <= many && Within(ty, v, few)
    ensures Within(ty, v, many)
    decreases ty
  {
    match ty
    case Primitive(_) =>
    case Str =>
    case Parcelable(fields) =>
      forall i | 0 <= i < |fields|
        ensures Within(fields[i], v.members[i], many - 4)
      {
        WithinMore(fields[i], v.members[i], few - 4, many - 4);
      }
    case Vector(elem) =>
      forall i | 0 <= i < |v.elems| && !elem.Primitive?
        ensures Within(elem, v.elems[i], many - 4)
      {
        WithinMore(elem, v.elems[i], few - 4, many - 4);
      }
    case Nullable(target) =>
      if v.Some? {
        WithinMore(target, v.value, few, many);
      }
  }

  lemma AllWithinMore(ty: Ty, vs: seq<Val>, few: int, many: int)
    requires few <= many && forall i | 0 <= i < |vs| :: HasType(ty, vs[i]) && Within(ty, vs[i], few)
    ensures forall i | 0 <= i < |vs| :: Within(ty, vs[i], many)
  {
    hide Within, HasType;
    forall i | 0 <= i < |vs|
      ensures Within(ty, vs[i], many)
    {
      WithinMore(ty, vs[i], few, many);
    }
  }

  /** A successful read gives a value of the type asked for, takes at least one whole word, and no part of
      the value is longer than the bytes taken. */
  predicate Sound(ty: Ty, r: Read<Val>, size: nat, pos: nat) {
    r.status == OK ==>
      pos <= r.pos <= size && HasType(ty, r.val) && Within(ty, r.val, r.pos - pos) && Words(r.pos - pos, 1)
  }

  lemma NumberInRange(p: Prim, s: seq<Byte>)
    requires |s| == Width(p) || |s| == ElementWidth(p)
    ensures InRange(p, Narrowed(p, Number(s)))
  {
    NumberBound(s);
    Bounds();
  }

  lemma PrimIsSound(p: Prim, buf: seq<Byte>, pos: nat)
    requires pos <= |buf|
    ensures Sound(Primitive(p), Decode(Primitive(p), buf, pos), |buf|, pos)
  {
    hide Narrowed, InRange, Number;
    if pos + Width(p) <= |buf| {
      NumberInRange(p, Piece(buf, pos, Width(p)));
    }
  }

  lemma UnitIsSmall(buf: seq<Byte>, pos: nat, i: nat)
    requires pos + 2 * (i + 1) <= |buf|
    ensures UnitAt(buf, pos, i) < TWO_16
  {
    Bounds();
    NumberBound(Piece(buf, pos + 2 * i, 2));
  }

  lemma UnitsAreSmall(buf: seq<Byte>, pos: nat, n: nat)
    requires pos + 2 * n <= |buf|
    ensures forall u | u in Units(buf, pos, n) :: u < TWO_16
  {
    forall i | 0 <= i < n
      ensures Units(buf, pos, n)[i] < TWO_16
    {
      UnitIsSmall(buf, pos, i);
    }
  }

  lemma SoundString(units: seq<nat>, size: nat, pos: nat, len: nat)
    requires pos + 4 + Padded(len) <= size && len == 2 * (|units| + 1) && forall u | u in units :: u < TWO_16
    ensures Sound(Str, Read(OK, Text(units), pos + 4 + Padded(len)), size, pos)
  {
  }

  lemma StringIsSound(buf: seq<Byte>, pos: nat)
    requires pos <= |buf|
    ensures Sound(Str, Decode(Str, buf, pos), |buf|, pos)
  {
    var r := ReadString(buf, pos);
    if r.status == OK {
      UnitsAreSmall(buf, pos + 4, |r.val|);
      SoundString(r.val, |buf|, pos, 2 * (|r.val| + 1));
      hide Sound, UnitAt, Units, Padded;
    }
  }

  lemma ElementsAreTyped(p: Prim, buf: seq<Byte>, pos: nat, n: nat)
    requires pos + ElementWidth(p) * n <= |buf|
    ensures forall e | e in Elements(p, buf, pos, n) :: HasType(Primitive(p), e)
  {
    hide Narrowed, InRange, Number;
    forall i | 0 <= i < n
      ensures HasType(Primitive(p), Elements(p, buf, pos, n)[i])
    {
      ElementFits(ElementWidth(p), i, n);
      NumberInRange(p, Piece(buf, pos + ElementWidth(p) * i, ElementWidth(p)));
    }
  }

  /** On any buffer whatever: what is read successfully is sound. */
  lemma {:induction false} DecodeIsSound(ty: Ty, buf: seq<Byte>, pos: nat)
    requires pos <= |buf|
    ensures Sound(ty, Decode(ty, buf, pos), |buf|, pos)
    decreases ty, 0
  {
    match ty
    case Primitive(p) => PrimIsSound(p, buf, pos);
    case Str => StringIsSound(buf, pos);
    case Parcelable(fields) =>
      if pos + 4 <= |buf| {
        ParcelableIsSound(fields, buf, pos);
      }
    case Vector(elem) =>
      if pos + 4 <= |buf| {
        if elem.Primitive? {
          PrimVectorIsSound(elem.prim, buf, pos);
        } else {
          VectorIsSound(elem, buf, pos);
        }
      }
    case Nullable(target) => DecodeIsSound(target, buf, pos);
  }

  lemma {:induction false} ParcelableIsSound(fields: seq<Ty>, buf: seq<Byte>, pos: nat)
    requires pos + 4 <= |buf|
    ensures Sound(Parcelable(fields), Decode(Parcelable(fields), buf, pos), |buf|, pos)
    decreases fields, 2
  {
    hide DecodeFields;
    FieldsAreSound(fields, buf, pos + 4, |fields|);
  }

  lemma SoundPrimVector(p: Prim, vs: seq<Val>, size: nat, pos: nat, len: nat)
    requires |vs| <= len && pos + 4 + Padded(len) <= size && forall e | e in vs :: HasType(Primitive(p), e)
    ensures Sound(Vector(Primitive(p)), Read(OK, Items(vs), pos + 4 + Padded(len)), size, pos)
  {
  }

  /** What a vector of primitives reads as, if it is read. */
  lemma PrimVectorTaken(p: Prim, buf: seq<Byte>, pos: nat) returns (n: nat, len: nat)
    requires pos + 4 <= |buf| && Decode(Vector(Primitive(p)), buf, pos).status == OK
    ensures n <= len == ElementWidth(p) * n && pos + 4 + len <= pos + 4 + Padded(len) <= |buf|
    ensures Decode(Vector(Primitive(p)), buf, pos)
         == Read(OK, Items(Elements(p, buf, pos + 4, n)), pos + 4 + Padded(len))
  {
    n := ReadPrim(Int32, buf, pos).val;
    len := ElementWidth(p) * n;
    hide ElementWidth, Elements;
    ElementFits(ElementWidth(p), 0, n + 1);
  }

  lemma PrimVectorIsSound(p: Prim, buf: seq<Byte>, pos: nat)
    requires pos + 4 <= |buf|
    ensures Sound(Vector(Primitive(p)), Decode(Vector(Primitive(p)), buf, pos), |buf|, pos)
  {
    hide Decode, Elements, ElementWidth, HasType, Within, Words;
    if Decode(Vector(Primitive(p)), buf, pos).status == OK {
      var n, len := PrimVectorTaken(p, buf, pos);
      ElementsAreTyped(p, buf, pos + 4, n);
      SoundPrimVector(p, Elements(p, buf, pos + 4, n), |buf|, pos, len);
    }
  }

  lemma {:induction false} VectorIsSound(elem: Ty, buf: seq<Byte>, pos: nat)
    requires !elem.Primitive? && pos + 4 <= |buf|
    ensures Sound(Vector(elem), Decode(Vector(elem), buf, pos), |buf|, pos)
    decreases elem, 2
  {
    hide DecodeElems;
    var size := ReadPrim(Int32, buf, pos);
    if size.val >= 0 {
      ElemsAreSound(elem, buf, size.pos, size.val);
    }
  }

  lemma {:induction false} ElemsAreSound(elem: Ty, buf: seq<Byte>, pos: nat, k: nat)
    requires pos <= |buf|
    ensures var r := DecodeElems(elem, buf, pos, k);
      r.status == OK ==>
        && Words(r.pos - pos, k)
        && forall i | 0 <= i < k :: HasType(elem, r.val[i]) && Within(elem, r.val[i], r.pos - pos)
    decreases elem, 1, k
  {
    hide Decode, HasType, Within;
    if k > 0 {
      hide Words;
      var done := DecodeElems(elem, buf, pos, k - 1);
      ElemsAreSound(elem, buf, pos, k - 1);
      if done.status == OK {
        DecodeIsSound(elem, buf, done.pos);
        var last := Decode(elem, buf, done.pos);
        if last.status == OK {
          WithinMore(elem, last.val, last.pos - done.pos, last.pos - pos);
          AllWithinMore(elem, done.val, done.pos - pos, last.pos - pos);
          MoreWords(done.pos - pos, k - 1, last.pos - done.pos, 1);
        }
      }
    }
  }

  lemma {:induction false} FieldsAreSound(tys: seq<Ty>, buf: seq<Byte>, pos: nat, k: nat)
    requires pos <= |buf| && k <= |tys|
    ensures var r := DecodeFields(tys, buf, pos, k);
      r.status == OK ==>
        && Words(r.pos - pos, k)
        && forall i | 0 <= i < k :: HasType(tys[i], r.val[i]) && Within(tys[i], r.val[i], r.pos - pos)
    decreases tys, 1, k
  {
    hide Decode, HasType, Within;
    if k > 0 {
      hide Words;
      var done := DecodeFields(tys, buf, pos, k - 1);
      FieldsAreSound(tys, buf, pos, k - 1);
      if done.status == OK {
        DecodeIsSound(tys[k - 1], buf, done.pos);
        var last := Decode(tys[k - 1], buf, done.pos);
        if last.status == OK {
          WithinMore(tys[k - 1], last.val, last.pos - done.pos, last.pos - pos);
          forall i | 0 <= i < k - 1
            ensures Within(tys[i], done.val[i], last.pos - pos)
          {
            WithinMore(tys[i], done.val[i], done.pos - pos, last.pos - pos);
          }
          MoreWords(done.pos - pos, k - 1, last.pos - done.pos, 1);
        }
      }
    }
  }

  /** Every part of `v`, at any depth, is what reading gives at the part's own position, and every vector or
      string is no longer than the bytes that reading it takes after its own size. */
  ghost predicate PartsFit(ty: Ty, v: Val, buf: seq<Byte>, pos: nat)
    requires pos <= |buf|
    decreases ty
  {
    var r := Decode(ty, buf, pos);
    && r.status == OK && r.val == v
    && match ty
       case Primitive(_) => true
       case Str => v.Text? && pos + 4 + 2 * |v.units| <= r.pos
       case Parcelable(fields) =>
         && v.Struct? && |v.members| == |fields| && pos + 4 <= |buf|
         && forall i | 0 <= i < |fields| ::
              PartsFit(fields[i], v.members[i], buf, DecodeFields(fields, buf, pos + 4, i).pos)
       case Vector(elem) =>
         && v.Items? && pos + 4 + |v.elems| <= r.pos
         && forall i | 0 <= i < |v.elems| && !elem.Primitive? ::
              PartsFit(elem, v.elems[i], buf, DecodeElems(elem, buf, pos + 4, i).pos)
       case Nullable(target) => v.None? || (v.Some? && PartsFit(target, v.value, buf, pos))
  }

  /** An element of a vector that was read is what reading gives where the elements before it end. */
  lemma {:induction false} ElementStandsAlone(elem: Ty, buf: seq<Byte>, pos: nat, i: nat, k: nat)
    requires pos <= |buf| && i < k && DecodeElems(elem, buf, pos, k).status == OK
    ensures var r := Decode(elem, buf, DecodeElems(elem, buf, pos, i).pos);
      r.status == OK && r.val == DecodeElems(elem, buf, pos, k).val[i]
    decreases k
  {
    hide Decode;
    if i < k - 1 {
      ElementStandsAlone(elem, buf, pos, i, k - 1);
    }
  }

  lemma {:induction false} FieldStandsAlone(tys: seq<Ty>, buf: seq<Byte>, pos: nat, i: nat, k: nat)
    requires pos <= |buf| && i < k <= |tys| && DecodeFields(tys, buf, pos, k).status == OK
    ensures var r := Decode(tys[i], buf, DecodeFields(tys, buf, pos, i).pos);
      r.status == OK && r.val == DecodeFields(tys, buf, pos, k).val[i]
    decreases k
  {
    hide Decode;
    if i < k - 1 {
      FieldStandsAlone(tys, buf, pos, i, k - 1);
    }
  }

  /** On any buffer whatever: the parts of what is read successfully fit, each against its own position. */
  lemma {:induction false} EveryPartFits(ty: Ty, buf: seq<Byte>, pos: nat)
    requires pos <= |buf| && Decode(ty, buf, pos).status == OK
    ensures PartsFit(ty, Decode(ty, buf, pos).val, buf, pos)
    decreases ty, 0
  {
    DecodeIsSound(ty, buf, pos);
    match ty
    case Primitive(_) =>
    case Str =>
    case Parcelable(fields) => EveryFieldFits(fields, buf, pos);
    case Vector(elem) =>
      if !elem.Primitive? {
        EveryElementFits(elem, buf, pos);
      }
    case Nullable(target) =>
      if Decode(ty, buf, pos).val.Some? {
        EveryPartFits(target, buf, pos);
      }
  }

  lemma {:induction false} EveryFieldFits(fields: seq<Ty>, buf: seq<Byte>, pos: nat)
    requires pos <= |buf| && Decode(Parcelable(fields), buf, pos).status == OK
    ensures var v := Decode(Parcelable(fields), buf, pos).val;
      && v.Struct? && |v.members| == |fields| && pos + 4 <= |buf|
      && forall i | 0 <= i < |fields| ::
           PartsFit(fields[i], v.members[i], buf, DecodeFields(fields, buf, pos + 4, i).pos)
    decreases fields, 1
  {
    hide DecodeFields, PartsFit;
    forall i | 0 <= i < |fields|
      ensures PartsFit(fields[i], Decode(Parcelable(fields), buf, pos).val.members[i], buf,
                       DecodeFields(fields, buf, pos + 4, i).pos)
    {
      FieldStandsAlone(fields, buf, pos + 4, i, |fields|);
      EveryPartFits(fields[i], buf, DecodeFields(fields, buf, pos + 4, i).pos);
    }
  }

  lemma {:induction false} EveryElementFits(elem: Ty, buf: seq<Byte>, pos: nat)
    requires !elem.Primitive? && pos <= |buf| && Decode(Vector(elem), buf, pos).status == OK
    ensures var v := Decode(Vector(elem), buf, pos).val;
      v.Items? && pos + 4 <= |buf|
      && forall i | 0 <= i < |v.elems| :: PartsFit(elem, v.elems[i], buf, DecodeElems(elem, buf, pos + 4, i).pos)
    decreases elem, 1
  {
    hide DecodeElems, PartsFit;
    var vs := Decode(Vector(elem), buf, pos).val.elems;
    forall i | 0 <= i < |vs|
      ensures PartsFit(elem, vs[i], buf, DecodeElems(elem, buf, pos + 4, i).pos)
    {
      ElementStandsAlone(elem, buf, pos + 4, i, |vs|);
      EveryPartFits(elem, buf, DecodeElems(elem, buf, pos + 4, i).pos);
    }
  }
}
