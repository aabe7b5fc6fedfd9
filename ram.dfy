/** `RAMMemoryDevice`: a byte buffer at a fixed base address. Every access goes to index
    `offset - start` (an unsigned difference read as an `Int`), and wide values are laid out
    in the buffer's byte order. */
module RamDevice {
  import opened Words
  import opened Buffers

  /** The buffer index of a bus offset: the 32-bit difference, as a signed `Int`. */
  function IndexOf(start: Word, offset: Word): int
  {
    Signed32(offset - start)
  }

  /** `ram.limit(min(n, capacity))` on a buffer of `size` bytes at `position`, then
      `newRam.put(ram)`: the bytes copied run from the position, clamped to the new limit,
      up to that limit. */
  function Remaining(buf: seq<Byte>, position: nat, n: nat): (r: seq<Byte>)
    ensures |r| <= n && |r| <= |buf|
    ensures position == 0 ==> r == buf[..Min(n, |buf|)]
    ensures position >= Min(n, |buf|) ==> r == []
  {
    var limit := Min(n, |buf|);
    buf[(if position > limit then limit else position)..limit]
  }

  class Ram {
    const start: Word
    /** The size given at construction; `resize` does not update it. */
    var length: Word
    var ram: array<Byte>
    var order: ByteOrder
    /** The buffer's position. The absolute gets and puts leave it alone; the relative
        `put` of `resize` reads the old buffer from it and leaves the new one's after the
        bytes it wrote. */
    var position: nat

    /** A RAM of `startLength` zero bytes in little-endian order. A length of 2^31 or more
        is a negative `Int` capacity, which `ByteBuffer.allocate` refuses. */
    constructor (start: Word, startLength: Word)
      requires startLength < 0x8000_0000
      ensures this.start == start && length == startLength && order == LittleEndian
      ensures ram[..] == Zeros(startLength as int) && fresh(ram) && position == 0
    {
      this.start := start;
      length := startLength;
      ram := new Byte[startLength as int](_ => 0);
      order := LittleEndian;
      position := 0;
    }

    function Read8(offset: Word): Access<Byte>
      reads this, ram
    {
      GetByte(ram[..], IndexOf(start, offset))
    }

    function Read16(offset: Word): Access<Half>
      reads this, ram
    {
      GetShort(ram[..], IndexOf(start, offset), order)
    }

    function Read32(offset: Word): Access<Word>
      reads this, ram
    {
      GetInt(ram[..], IndexOf(start, offset), order)
    }

    function Read64(offset: Word): Access<Dword>
      reads this, ram
    {
      GetLong(ram[..], IndexOf(start, offset), order)
    }

    /** An absolute put of the bytes `le` (least significant first) at `index`. */
    method Put(index: int, le: seq<Byte>) returns (ok: bool)
      modifies ram
      ensures ok == InBounds(ram.Length, index, |le|)
      ensures ok ==> ram[..] == PutBytes(old(ram[..]), index, le, order).value
      ensures !ok ==> ram[..] == old(ram[..])
    {
      if !InBounds(ram.Length, index, |le|) {
        return false;
      }
      var bs := InOrder(le, order);
      ghost var before := ram[..];
      for k := 0 to |bs|
        invariant ram[..] == before[..index] + bs[..k] + before[index + k..]
      {
        ram[index + k] := bs[k];
        assert bs[..k + 1] == bs[..k] + [bs[k]];
      }
      assert bs[..|bs|] == bs;
      return true;
    }

    method Write8(offset: Word, v: Byte) returns (ok: bool)
      modifies ram
      ensures ok == InBounds(ram.Length, IndexOf(start, offset), 1)
      ensures ok ==> ram[..] == PutBytes(old(ram[..]), IndexOf(start, offset), [v], order).value
      ensures ok ==> Read8(offset) == Done(v)
      ensures !ok ==> ram[..] == old(ram[..])
    {
      ok := Put(IndexOf(start, offset), [v]);
      if ok {
        assert InOrder([v], order) == [v];
        GetPutByte(old(ram[..]), IndexOf(start, offset), v);
      }
    }

    method Write16(offset: Word, v: Half) returns (ok: bool)
      modifies ram
      ensures ok == InBounds(ram.Length, IndexOf(start, offset), 2)
      ensures ok ==> ram[..] == PutBytes(old(ram[..]), IndexOf(start, offset), Bytes16(v), order).value
      ensures ok ==> Read16(offset) == Done(v)
      ensures !ok ==> ram[..] == old(ram[..])
    {
      ok := Put(IndexOf(start, offset), Bytes16(v));
      if ok {
        GetPutShort(old(ram[..]), IndexOf(start, offset), v, order);
      }
    }

    method Write32(offset: Word, v: Word) returns (ok: bool)
      modifies ram
      ensures ok == InBounds(ram.Length, IndexOf(start, offset), 4)
      ensures ok ==> ram[..] == PutBytes(old(ram[..]), IndexOf(start, offset), Bytes32(v), order).value
      ensures ok ==> Read32(offset) == Done(v)
      ensures !ok ==> ram[..] == old(ram[..])
    {
      ok := Put(IndexOf(start, offset), Bytes32(v));
      if ok {
        GetPutInt(old(ram[..]), IndexOf(start, offset), v, order);
      }
    }

    method Write64(offset: Word, v: Dword) returns (ok: bool)
      modifies ram
      ensures ok == InBounds(ram.Length, IndexOf(start, offset), 8)
      ensures ok ==> ram[..] == PutBytes(old(ram[..]), IndexOf(start, offset), Bytes64(v), order).value
      ensures ok ==> Read64(offset) == Done(v)
      ensures !ok ==> ram[..] == old(ram[..])
    {
      ok := Put(IndexOf(start, offset), Bytes64(v));
      if ok {
        GetPutLong(old(ram[..]), IndexOf(start, offset), v, order);
      }
    }

    /** A fresh buffer of `n` bytes that starts with the bytes `from..to` of the current one
        and is zero after them. */
    method Copy(from: nat, to: nat, n: nat) returns (a: array<Byte>)
      requires from <= to <= ram.Length && to - from <= n
      ensures fresh(a) && a[..] == Resized(ram[from..to], n)
    {
      a := new Byte[n](_ => 0);
      for k := 0 to to - from
        invariant forall j :: 0 <= j < k ==> a[j] == ram[from + j]
        invariant forall j :: k <= j < n ==> a[j] == 0
      {
        a[k] := ram[from + k];
      }
    }

    /** `resize`, as written: the copy is allocated with `ByteBuffer.allocate`, whose order
        is big-endian, and the little-endian order of the old buffer is not set on it. The
        relative `put` copies from the old buffer's position, and leaves the new buffer's
        position after the bytes copied, where the next `resize` starts. */
    method ResizeAsWritten(newSize: Word) returns (ok: bool)
      modifies this
      ensures ok == (newSize < 0x8000_0000)
      ensures ok ==> fresh(ram) && order == BigEndian
      ensures ok ==> ram[..] == Resized(Remaining(old(ram[..]), old(position), newSize as int), newSize as int)
      ensures ok ==> position == |Remaining(old(ram[..]), old(position), newSize as int)|
      ensures !ok ==> ram == old(ram) && order == old(order) && position == old(position)
      ensures length == old(length)
    {
      if newSize >= 0x8000_0000 {
        return false;
      }
      var limit := Min(newSize as int, ram.Length);
      var from := if position > limit then limit else position;
      ram := Copy(from, limit, newSize as int);
      position := limit - from;
      order := BigEndian;
      return true;
    }

    /** `resize` with the buffer's order carried over and the whole kept prefix copied
        (an absolute bulk put, which moves no position): the kept bytes read back as
        before. */
    method Resize(newSize: Word) returns (ok: bool)
      modifies this
      ensures ok == (newSize < 0x8000_0000)
      ensures ok ==> fresh(ram) && ram[..] == Resized(old(ram[..]), newSize as int)
      ensures !ok ==> ram == old(ram)
      ensures length == old(length) && order == old(order) && position == old(position)
    {
      if newSize >= 0x8000_0000 {
        return false;
      }
      ghost var before := ram[..];
      ram := Copy(0, Min(newSize as int, ram.Length), newSize as int);
      PrefixResized(before, newSize as int);
      return true;
    }
  }

  /** Copying the first `min(n, size)` bytes into `n` zero bytes is the resize of the
      whole buffer. */
  lemma PrefixResized(buf: seq<Byte>, n: nat)
    ensures Resized(buf[..Min(n, |buf|)], n) == Resized(buf, n)
  {
    var a, b := Resized(buf[..Min(n, |buf|)], n), Resized(buf, n);
    assert forall j :: 0 <= j < n ==> a[j] == b[j];
  }

  /** The first as-written `resize` of a RAM copies from position 0, so it keeps the
      bytes of the resized prefix (in the wrong order, as `ResizeSwapsWords` shows). */
  lemma FirstResizeKeepsBytes(buf: seq<Byte>, n: nat)
    ensures Resized(Remaining(buf, 0, n), n) == Resized(buf, n)
  {
    PrefixResized(buf, n);
  }

  /** A second as-written `resize` starts where the first left the position: grown from
      four bytes to eight and then resized to eight again, a RAM whose first word was
      0x01020304 holds only zeros. */
  lemma ResizeTwiceLosesPrefix()
    ensures var before := PutBytes(Zeros(4), 0, Bytes32(0x0102_0304), LittleEndian).value;
      var once := Resized(Remaining(before, 0, 8), 8);
      var twice := Resized(Remaining(once, |Remaining(before, 0, 8)|, 8), 8);
      before[0] == 4 && twice == Zeros(8)
  {
    var before := PutBytes(Zeros(4), 0, Bytes32(0x0102_0304), LittleEndian).value;
    var once := Resized(Remaining(before, 0, 8), 8);
    assert |Remaining(before, 0, 8)| == 4;
    var twice := Resized(Remaining(once, 4, 8), 8);
    assert Remaining(once, 4, 8) == once[4..8];
    assert forall j :: 0 <= j < 8 ==> twice[j] == 0;
  }

  /** After the as-written `resize` a word stored before it reads back byte-swapped:
      0x01020304 at offset 0 of a four-byte RAM comes back as 0x04030201. */
  lemma ResizeSwapsWords()
    ensures var before := PutBytes(Zeros(4), 0, Bytes32(0x0102_0304), LittleEndian).value;
      GetInt(Resized(before, 4), 0, BigEndian) == Done(0x0403_0201)
  {
    OrderMismatch();
    assert Resized(PutBytes(Zeros(4), 0, Bytes32(0x0102_0304), LittleEndian).value, 4)
      == PutBytes(Zeros(4), 0, Bytes32(0x0102_0304), LittleEndian).value;
  }

  /** With the order kept, every word in the kept part reads back as stored. */
  lemma ResizeKeepsWords(buf: seq<Byte>, n: nat, index: int, v: Word, order: ByteOrder)
    requires InBounds(n, index, 4) && InBounds(|buf|, index, 4)
    ensures GetInt(Resized(PutBytes(buf, index, Bytes32(v), order).value, n), index, order) == Done(v)
  {
    GetPutInt(buf, index, v, order);
    ResizedKeepsInt(PutBytes(buf, index, Bytes32(v), order).value, n, index, order);
  }
}
