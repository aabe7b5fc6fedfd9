/** The absolute accessors of `java.nio.ByteBuffer` that the memory devices use: a buffer is
    a sequence of bytes, an index is an `Int`, and a wide value is laid out in the buffer's
    byte order. An index whose access would leave the buffer is an
    `IndexOutOfBoundsException`. */
module Buffers {
  import opened Words

  datatype ByteOrder = LittleEndian | BigEndian

  /** The result of an absolute access: its value, or the out-of-bounds exception. */
  datatype Access<T> = Done(value: T) | OutOfBounds

  /** A sequence of `n` zero bytes, as a fresh buffer holds. */
  function Zeros(n: nat): (r: seq<Byte>)
    ensures |r| == n && forall j :: 0 <= j < n ==> r[j] == 0
  {
    if n == 0 then [] else Zeros(n - 1) + [0]
  }

  function Reverse(s: seq<Byte>): (r: seq<Byte>)
    ensures |r| == |s|
    ensures forall j :: 0 <= j < |s| ==> r[j] == s[|s| - 1 - j]
  {
    if s == [] then [] else Reverse(s[1..]) + [s[0]]
  }

  lemma {:induction false} ReverseTwice(s: seq<Byte>)
    ensures Reverse(Reverse(s)) == s
  {
    var r := Reverse(Reverse(s));
    assert |r| == |s|;
    forall j | 0 <= j < |s|
      ensures r[j] == s[j]
    {
      assert Reverse(s)[|s| - 1 - j] == s[j];
    }
  }

  /** The bytes of a value, least significant first, as they lie in a buffer of `order`. */
  function InOrder(le: seq<Byte>, order: ByteOrder): seq<Byte>
  {
    if order == LittleEndian then le else Reverse(le)
  }

  /** Arranging twice in the same order gives back the original bytes. */
  lemma InOrderTwice(le: seq<Byte>, order: ByteOrder)
    ensures InOrder(InOrder(le, order), order) == le
  {
    if order == BigEndian {
      ReverseTwice(le);
    }
  }

  /** Two bytes, least significant first, as a 16-bit value. */
  function Le16(bs: seq<Byte>): Half
    requires |bs| == 2
  {
    ((bs[1] as Half) << 8) | (bs[0] as Half)
  }

  function Le32(bs: seq<Byte>): Word
    requires |bs| == 4
  {
    ((Le16(bs[2..]) as Word) << 16) | (Le16(bs[..2]) as Word)
  }

  function Le64(bs: seq<Byte>): Dword
    requires |bs| == 8
  {
    Join64(Le32(bs[4..]), Le32(bs[..4]))
  }

  /** A 16-bit value as two bytes, least significant first. */
  function Bytes16(v: Half): (bs: seq<Byte>)
    ensures |bs| == 2 && Le16(bs) == v
  {
    [(v & 0xFF) as Byte, (v >> 8) as Byte]
  }

  function Bytes32(v: Word): (bs: seq<Byte>)
    ensures |bs| == 4 && Le32(bs) == v
  {
    var lo, hi := Bytes16(Low16(v)), Bytes16((v >> 16) as Half);
    assert (lo + hi)[2..] == hi && (lo + hi)[..2] == lo;
    lo + hi
  }

  function Bytes64(v: Dword): (bs: seq<Byte>)
    ensures |bs| == 8 && Le64(bs) == v
  {
    var lo, hi := Bytes32(Low32(v)), Bytes32(High32(v));
    assert (lo + hi)[4..] == hi && (lo + hi)[..4] == lo;
    lo + hi
  }

  /** The least significant byte of a 32-bit value comes first. */
  lemma Bytes32Low(v: Word)
    ensures Bytes32(v)[0] == Low8(v)
  {
  }

  /** Decoding is injective on 32-bit layouts: the bytes are the encoding of their value. */
  lemma Le32Bytes(bs: seq<Byte>)
    requires |bs| == 4
    ensures Bytes32(Le32(bs)) == bs
  {
    var r := Bytes32(Le32(bs));
    assert r[0] == bs[0] && r[1] == bs[1] && r[2] == bs[2] && r[3] == bs[3];
  }

  predicate InBounds(size: int, index: int, width: nat)
  {
    0 <= index && index + width <= size
  }

  /** The `width` bytes at `index`, least significant first. */
  function Slice(buf: seq<Byte>, index: int, width: nat, order: ByteOrder): (r: Access<seq<Byte>>)
    ensures r.Done? <==> InBounds(|buf|, index, width)
    ensures r.Done? ==> |r.value| == width
  {
    if InBounds(|buf|, index, width) then Done(InOrder(buf[index..index + width], order)) else OutOfBounds
  }

  /** `get(index)`. */
  function GetByte(buf: seq<Byte>, index: int): Access<Byte>
  {
    if InBounds(|buf|, index, 1) then Done(buf[index]) else OutOfBounds
  }

  /** `getShort(index)`. */
  function GetShort(buf: seq<Byte>, index: int, order: ByteOrder): Access<Half>
  {
    match Slice(buf, index, 2, order)
    case Done(bs) => Done(Le16(bs))
    case OutOfBounds => OutOfBounds
  }

  /** `getInt(index)`. */
  function GetInt(buf: seq<Byte>, index: int, order: ByteOrder): Access<Word>
  {
    match Slice(buf, index, 4, order)
    case Done(bs) => Done(Le32(bs))
    case OutOfBounds => OutOfBounds
  }

  /** `getLong(index)`. */
  function GetLong(buf: seq<Byte>, index: int, order: ByteOrder): Access<Dword>
  {
    match Slice(buf, index, 8, order)
    case Done(bs) => Done(Le64(bs))
    case OutOfBounds => OutOfBounds
  }

  /** The buffer with `bs` written from `index` on. */
  function Put(buf: seq<Byte>, index: int, bs: seq<Byte>): (r: seq<Byte>)
    requires InBounds(|buf|, index, |bs|)
    ensures |r| == |buf|
    ensures r[index..index + |bs|] == bs
    ensures forall j :: 0 <= j < |buf| && !(index <= j < index + |bs|) ==> r[j] == buf[j]
  {
    buf[..index] + bs + buf[index + |bs|..]
  }

  /** The bytes an absolute put of width `|le|` lays down: `le` in the buffer's order, or the
      out-of-bounds exception with the buffer untouched. */
  function PutBytes(buf: seq<Byte>, index: int, le: seq<Byte>, order: ByteOrder): Access<seq<Byte>>
  {
    if InBounds(|buf|, index, |le|) then Done(Put(buf, index, InOrder(le, order))) else OutOfBounds
  }

  /** A put at an index reads back through the get of the same width and order. */
  lemma GetPutInt(buf: seq<Byte>, index: int, v: Word, order: ByteOrder)
    requires InBounds(|buf|, index, 4)
    ensures GetInt(PutBytes(buf, index, Bytes32(v), order).value, index, order) == Done(v)
  {
    InOrderTwice(Bytes32(v), order);
  }

  lemma GetPutShort(buf: seq<Byte>, index: int, v: Half, order: ByteOrder)
    requires InBounds(|buf|, index, 2)
    ensures GetShort(PutBytes(buf, index, Bytes16(v), order).value, index, order) == Done(v)
  {
    InOrderTwice(Bytes16(v), order);
  }

  lemma GetPutLong(buf: seq<Byte>, index: int, v: Dword, order: ByteOrder)
    requires InBounds(|buf|, index, 8)
    ensures GetLong(PutBytes(buf, index, Bytes64(v), order).value, index, order) == Done(v)
  {
    InOrderTwice(Bytes64(v), order);
  }

  lemma GetPutByte(buf: seq<Byte>, index: int, v: Byte)
    requires InBounds(|buf|, index, 1)
    ensures GetByte(PutBytes(buf, index, [v], LittleEndian).value, index) == Done(v)
  {
    assert Put(buf, index, [v])[index..index + 1] == [v];
  }

  /** A put leaves every byte outside its own range as it was, and the size as it was. */
  lemma PutOutside(buf: seq<Byte>, index: int, le: seq<Byte>, order: ByteOrder, j: int)
    requires InBounds(|buf|, index, |le|)
    requires 0 <= j < |buf| && !(index <= j < index + |le|)
    ensures |PutBytes(buf, index, le, order).value| == |buf|
    ensures GetByte(PutBytes(buf, index, le, order).value, j) == GetByte(buf, j)
  {
  }

  /** In a little-endian buffer the first byte of a 32-bit put is the value's low byte. */
  lemma PutIntLowByte(buf: seq<Byte>, index: int, v: Word)
    requires InBounds(|buf|, index, 4)
    ensures GetByte(PutBytes(buf, index, Bytes32(v), LittleEndian).value, index) == Done(Low8(v))
  {
    var r := Put(buf, index, Bytes32(v));
    assert r[index] == r[index..index + 4][0];
    Bytes32Low(v);
  }

  /** In a big-endian buffer it is the high byte: 0x01020304 puts 0x01 first, not 0x04. */
  lemma PutIntBigEndianFirstByte()
    ensures GetByte(PutBytes(Zeros(4), 0, Bytes32(0x0102_0304), BigEndian).value, 0) == Done(0x01)
    ensures Low8(0x0102_0304) == 0x04
  {
    var r := Put(Zeros(4), 0, InOrder(Bytes32(0x0102_0304), BigEndian));
    assert r[0] == r[0..4][0];
  }

  /** Bytes laid down little-endian and read back big-endian come out swapped. */
  lemma OrderMismatch()
    ensures GetInt(PutBytes(Zeros(4), 0, Bytes32(0x0102_0304), LittleEndian).value, 0, BigEndian) == Done(0x0403_0201)
  {
    var r := Put(Zeros(4), 0, Bytes32(0x0102_0304));
    assert r == r[0..4];
    assert r == [0x04, 0x03, 0x02, 0x01];
    assert Reverse(r) == [0x01, 0x02, 0x03, 0x04];
  }

  /** The buffer `resize` builds: the first `min(n, |buf|)` bytes of the old one, then zeros. */
  function Resized(buf: seq<Byte>, n: nat): (r: seq<Byte>)
    ensures |r| == n
    ensures forall j :: 0 <= j < n && j < |buf| ==> r[j] == buf[j]
    ensures forall j :: |buf| <= j < n ==> r[j] == 0
  {
    if n <= |buf| then buf[..n] else buf + Zeros(n - |buf|)
  }

  /** A resize keeps every value that lay wholly within the kept prefix, read in one order. */
  lemma ResizedKeepsInt(buf: seq<Byte>, n: nat, index: int, order: ByteOrder)
    requires InBounds(n, index, 4) && InBounds(|buf|, index, 4)
    ensures GetInt(Resized(buf, n), index, order) == GetInt(buf, index, order)
  {
    assert Resized(buf, n)[index..index + 4] == buf[index..index + 4];
  }
}
