/** Sequences of bytes: numbers in them, little-endian, and what stands where. */
module ByteSequences {

  type Byte = b: int | 0 <= b < 256

  const TWO_16 := 0x1_0000
  const TWO_32 := 0x1_0000_0000
  const TWO_64 := 0x1_0000_0000_0000_0000

  function Bound(w: nat): (b: nat)
    ensures b >= 1
  {
    if w == 0 then 1 else 256 * Bound(w - 1)
  }

  function Bytes(w: nat, n: nat): (s: seq<Byte>)
    ensures |s| == w
  {
    if w == 0 then [] else [n % 256] + Bytes(w - 1, n / 256)
  }

  function Number(s: seq<Byte>): (n: nat) {
    if s == [] then 0 else s[0] + 256 * Number(s[1..])
  }

  lemma {:induction false} NumberOfBytes(w: nat, n: nat)
    requires n < Bound(w)
    ensures Number(Bytes(w, n)) == n
  {
    if w > 0 {
      NumberOfBytes(w - 1, n / 256);
      assert Bytes(w, n)[1..] == Bytes(w - 1, n / 256);
    }
  }

  /** The four bytes of a 32-bit number, written out. */
  function LowestFirst(n: nat): (s: seq<Byte>)
    requires n < 0x1_0000_0000
  {
    [n % 0x100, n / 0x100 % 0x100, n / 0x1_0000 % 0x100, n / 0x100_0000]
  }

  lemma FourBytes(n: nat)
    requires n < 0x1_0000_0000
    ensures Bytes(4, n) == LowestFirst(n)
  {
    var a := n / 0x100;
    var b := a / 0x100;
    var c := b / 0x100;
    assert Bytes(1, c) == [c % 0x100];
    assert Bytes(2, b) == [b % 0x100] + Bytes(1, c);
    assert Bytes(3, a) == [a % 0x100] + Bytes(2, b);
  }

  /** A 64-bit number is its low word and its high word. */
  lemma EightBytes(n: nat)
    requires n < 0x1_0000_0000_0000_0000
    ensures Bytes(8, n) == LowestFirst(n % 0x1_0000_0000) + LowestFirst(n / 0x1_0000_0000)
  {
    var a := n / 0x100;
    var b := a / 0x100;
    var c := b / 0x100;
    var d := c / 0x100;
    FourBytes(d);
    hide LowestFirst;
    assert Bytes(5, c) == [c % 0x100] + Bytes(4, d);
    assert Bytes(6, b) == [b % 0x100] + Bytes(5, c);
    assert Bytes(7, a) == [a % 0x100] + Bytes(6, b);
    assert Bytes(8, n) == [n % 0x100, a % 0x100, b % 0x100, c % 0x100] + Bytes(4, d);
    LowWord(n);
  }

  lemma LowWord(n: nat)
    ensures var a := n / 0x100;
      var b := a / 0x100;
      var c := b / 0x100;
      LowestFirst(n % 0x1_0000_0000) == [n % 0x100, a % 0x100, b % 0x100, c % 0x100]
      && c / 0x100 == n / 0x1_0000_0000
  {
    var high, low := n / 0x1_0000_0000, n % 0x1_0000_0000;
    var a, b, c := low / 0x100, low / 0x1_0000, low / 0x100_0000;
    OneByteLess(n, 0x100_0000 * high, low);
    OneByteLess(0x100_0000 * high + a, 0x1_0000 * high, a);
    OneByteLess(0x1_0000 * high + b, 0x100 * high, b);
    OneByteLess(0x100 * high + c, high, c);
  }

  lemma OneByteLess(n: nat, high: nat, low: nat)
    requires n == 0x100 * high + low
    ensures n % 0x100 == low % 0x100 && n / 0x100 == high + low / 0x100
  {
  }

  lemma {:induction false} NumberBound(s: seq<Byte>)
    ensures Number(s) < Bound(|s|)
  {
    if s != [] {
      NumberBound(s[1..]);
    }
  }

  lemma Bounds()
    ensures Bound(1) == 256 && Bound(2) == TWO_16 && Bound(4) == TWO_32 && Bound(8) == TWO_64
  {
    assert Bound(2) == 256 * Bound(1);
    assert Bound(3) == 256 * Bound(2);
    assert Bound(4) == 256 * Bound(3);
    assert Bound(5) == 256 * Bound(4);
    assert Bound(6) == 256 * Bound(5);
    assert Bound(7) == 256 * Bound(6);
    assert Bound(8) == 256 * Bound(7);
  }

  /** The `len` bytes at `pos`. */
  function Piece(buf: seq<Byte>, pos: nat, len: nat): (s: seq<Byte>)
    requires pos + len <= |buf|
  {
    buf[pos..pos + len]
  }

  function Zeros(n: nat): (s: seq<Byte>)
    ensures |s| == n
  {
    seq(n, _ => 0)
  }

  /** `bytes` stands in `buf` at `pos`. */
  ghost predicate At(bytes: seq<Byte>, buf: seq<Byte>, pos: nat) {
    pos + |bytes| <= |buf| && buf[pos..pos + |bytes|] == bytes
  }

  lemma AtIsSlice(bytes: seq<Byte>, buf: seq<Byte>, pos: nat)
    requires At(bytes, buf, pos)
    ensures pos + |bytes| <= |buf| && buf[pos..pos + |bytes|] == bytes
  {
  }

  lemma AtParts(a: seq<Byte>, b: seq<Byte>, buf: seq<Byte>, pos: nat)
    requires At(a + b, buf, pos)
    ensures At(a, buf, pos) && At(b, buf, pos + |a|)
  {
    assert buf[pos..pos + |a|] == (a + b)[..|a|] == a;
    assert buf[pos + |a|..pos + |a| + |b|] == (a + b)[|a|..] == b;
  }

  lemma AtPiece(bytes: seq<Byte>, buf: seq<Byte>, pos: nat, lo: nat, len: nat)
    requires At(bytes, buf, pos) && lo + len <= |bytes|
    ensures Piece(buf, pos + lo, len) == Piece(bytes, lo, len)
  {
    var s := buf[pos..pos + |bytes|];
    forall i | 0 <= i < len
      ensures Piece(buf, pos + lo, len)[i] == Piece(bytes, lo, len)[i]
    {
      assert s[lo + i] == buf[pos + lo + i];
    }
  }

  lemma PieceOfLeft(a: seq<Byte>, b: seq<Byte>, lo: nat, len: nat)
    requires lo + len <= |a|
    ensures Piece(a + b, lo, len) == Piece(a, lo, len)
  {
  }

  lemma PieceOfRight(a: seq<Byte>, b: seq<Byte>)
    ensures Piece(a + b, |a|, |b|) == b
  {
  }
}
