/** The physical address space behind the MMU. `PhysicalMemorySpace`, which routes each
    access to a device, is not part of this model; here the whole 32-bit space is one
    little-endian byte store: a total function from addresses to bytes. */
module Physical {
  import opened Words

  /** The contents of physical memory. */
  type Memory = Word -> Byte

  function ByteAt(m: Memory, a: Word): Byte
  {
    m(a)
  }

  function Load8(m: Memory, a: Word): Byte
  {
    ByteAt(m, a)
  }

  /** Two bytes, the lower address holding the low byte. */
  function Load16(m: Memory, a: Word): Half
  {
    ((ByteAt(m, a + 1) as Half) << 8) | (ByteAt(m, a) as Half)
  }

  /** Four bytes in little-endian order. */
  function Load32(m: Memory, a: Word): Word
  {
    ((Load16(m, a + 2) as Word) << 16) | (Load16(m, a) as Word)
  }

  /** Eight bytes in little-endian order. */
  function Load64(m: Memory, a: Word): Dword
  {
    Join64(Load32(m, a + 4), Load32(m, a))
  }

  function Store8(m: Memory, a: Word, v: Byte): (r: Memory)
    ensures r(a) == v
    ensures forall b :: b != a ==> r(b) == m(b)
  {
    b => if b == a then v else m(b)
  }

  function Store16(m: Memory, a: Word, v: Half): Memory
  {
    Store8(Store8(m, a, (v & 0xFF) as Byte), a + 1, (v >> 8) as Byte)
  }

  function Store32(m: Memory, a: Word, v: Word): Memory
  {
    Store16(Store16(m, a, Low16(v)), a + 2, (v >> 16) as Half)
  }

  function Store64(m: Memory, a: Word, v: Dword): Memory
  {
    Store32(Store32(m, a, Low32(v)), a + 4, High32(v))
  }

  /** The byte at `b` lies outside the `w` bytes starting at `a` (addresses wrap at 2^32). */
  predicate Outside(a: Word, w: Word, b: Word)
  {
    b - a >= w
  }

  /** A 16-bit value is its high byte shifted over its low byte. */
  lemma Halves16(v: Half)
    ensures ((((v >> 8) as Byte) as Half) << 8) | (((v & 0xFF) as Byte) as Half) == v
  {
  }

  /** A 32-bit value is its high half shifted over its low half. */
  lemma Halves32(v: Word)
    ensures ((((v >> 16) as Half) as Word) << 16) | (Low16(v) as Word) == v
  {
  }

  /** The two bytes a 16-bit store writes: the low byte first. */
  lemma Store16Bytes(m: Memory, a: Word, v: Half)
    ensures ByteAt(Store16(m, a, v), a) == (v & 0xFF) as Byte
    ensures ByteAt(Store16(m, a, v), a + 1) == (v >> 8) as Byte
  {
    assert a + 1 != a;
  }

  /** A 16-bit store leaves every byte outside it unchanged. */
  lemma Store16Outside(m: Memory, a: Word, v: Half, b: Word)
    requires Outside(a, 2, b)
    ensures ByteAt(Store16(m, a, v), b) == ByteAt(m, b)
  {
    assert b != a && b != a + 1;
  }

  /** A 16-bit store reads back. */
  lemma LoadStore16(m: Memory, a: Word, v: Half)
    ensures Load16(Store16(m, a, v), a) == v
  {
    Store16Bytes(m, a, v);
    Halves16(v);
  }

  /** A 32-bit store leaves every byte outside it unchanged. */
  lemma Store32Outside(m: Memory, a: Word, v: Word, b: Word)
    requires Outside(a, 4, b)
    ensures ByteAt(Store32(m, a, v), b) == ByteAt(m, b)
  {
    Store16Outside(m, a, Low16(v), b);
    Store16Outside(Store16(m, a, Low16(v)), a + 2, (v >> 16) as Half, b);
  }

  /** Two memories that agree on two bytes give the same 16-bit load there. */
  lemma Load16Same(m: Memory, m': Memory, a: Word)
    requires ByteAt(m, a) == ByteAt(m', a) && ByteAt(m, a + 1) == ByteAt(m', a + 1)
    ensures Load16(m, a) == Load16(m', a)
  {
  }

  /** A 32-bit load whose two halves are those of `v` is `v`. */
  lemma Load32Halves(m: Memory, a: Word, v: Word)
    requires Load16(m, a) == Low16(v) && Load16(m, a + 2) == (v >> 16) as Half
    ensures Load32(m, a) == v
  {
    Halves32(v);
  }

  /** A 32-bit store reads back. */
  lemma LoadStore32(m: Memory, a: Word, v: Word)
    ensures Load32(Store32(m, a, v), a) == v
  {
    var lo, hi := Low16(v), (v >> 16) as Half;
    var m1 := Store16(m, a, lo);
    var m2 := Store16(m1, a + 2, hi);
    Store16Outside(m1, a + 2, hi, a);
    Store16Outside(m1, a + 2, hi, a + 1);
    Load16Same(m1, m2, a);
    LoadStore16(m, a, lo);
    LoadStore16(m1, a + 2, hi);
    Load32Halves(m2, a, v);
  }

  /** A 64-bit store leaves every byte outside it unchanged. */
  lemma Store64Outside(m: Memory, a: Word, v: Dword, b: Word)
    requires Outside(a, 8, b)
    ensures ByteAt(Store64(m, a, v), b) == ByteAt(m, b)
  {
    Store32Outside(m, a, Low32(v), b);
    Store32Outside(Store32(m, a, Low32(v)), a + 4, High32(v), b);
  }

  /** A 64-bit store reads back. */
  lemma LoadStore64(m: Memory, a: Word, v: Dword)
    ensures Load64(Store64(m, a, v), a) == v
  {
    var m1 := Store32(m, a, Low32(v));
    var m2 := Store32(m1, a + 4, High32(v));
    Store32Outside(m1, a + 4, High32(v), a);
    Store32Outside(m1, a + 4, High32(v), a + 1);
    Store32Outside(m1, a + 4, High32(v), a + 2);
    Store32Outside(m1, a + 4, High32(v), a + 3);
    Load16Same(m1, m2, a);
    assert a + 2 + 1 == a + 3;
    Load16Same(m1, m2, a + 2);
    Load32Same(m1, m2, a);
    LoadStore32(m, a, Low32(v));
    LoadStore32(m1, a + 4, High32(v));
    Load64Halves(m2, a, v);
  }

  /** A 64-bit load whose two words are those of `v` is `v`. */
  lemma Load64Halves(m: Memory, a: Word, v: Dword)
    requires Load32(m, a) == Low32(v) && Load32(m, a + 4) == High32(v)
    ensures Load64(m, a) == v
  {
    Halves64(v);
  }

  /** Two memories that agree on the two halves of a word give the same 32-bit load there. */
  lemma Load32Same(m: Memory, m': Memory, a: Word)
    requires Load16(m, a) == Load16(m', a) && Load16(m, a + 2) == Load16(m', a + 2)
    ensures Load32(m, a) == Load32(m', a)
  {
  }

  /** A 64-bit value is the join of its halves. */
  lemma Halves64(v: Dword)
    ensures Join64(High32(v), Low32(v)) == v
  {
  }

  /** The first byte of a 32-bit store is the value's low byte (little-endian order). */
  lemma StoreLittleEndian(m: Memory, a: Word, v: Word)
    ensures Load8(Store32(m, a, v), a) == Low8(v)
  {
    Store16Outside(Store16(m, a, Low16(v)), a + 2, (v >> 16) as Half, a);
    Store16Bytes(m, a, Low16(v));
  }
}
