/** `ROMMemoryDevice`: a little-endian buffer filled once from the construction data, at a
    fixed base address. Reads index it by `offset - start`, as the RAM does. */
module RomDevice {
  import opened Words
  import opened Buffers
  import opened RamDevice

  datatype Rom = Rom(start: Word, rom: seq<Byte>)
  {
    /** The buffer's capacity. */
    function Length(): nat
    {
      |rom|
    }

    function Read8(offset: Word): Access<Byte>
    {
      GetByte(rom, IndexOf(start, offset))
    }

    function Read16(offset: Word): Access<Half>
    {
      GetShort(rom, IndexOf(start, offset), LittleEndian)
    }

    function Read32(offset: Word): Access<Word>
    {
      GetInt(rom, IndexOf(start, offset), LittleEndian)
    }

    function Read64(offset: Word): Access<Dword>
    {
      GetLong(rom, IndexOf(start, offset), LittleEndian)
    }
  }

  /** The device built from `data` (a JVM array, so shorter than 2^31 bytes): its contents
      are the data and its length the data's size. */
  function FromData(start: Word, data: seq<Byte>): (r: Rom)
    requires |data| < 0x8000_0000
    ensures r.start == start && r.rom == data
    ensures r.Length() == |data|
  {
    Rom(start, data)
  }

  /** The byte `i` places above the base is `data[i]`. */
  lemma ReadByteAt(start: Word, data: seq<Byte>, i: Word)
    requires i < 0x8000_0000 && i as int < |data| < 0x8000_0000
    ensures FromData(start, data).Read8(start + i) == Done(data[i])
  {
    assert (start + i) - start == i;
  }

  /** The word `i` places above the base is the little-endian composition of `data[i..i+4]`. */
  lemma ReadWordAt(start: Word, data: seq<Byte>, i: Word)
    requires i < 0x8000_0000 && i as int + 4 <= |data| < 0x8000_0000
    ensures FromData(start, data).Read32(start + i) == Done(Le32(data[i..i as int + 4]))
  {
    assert (start + i) - start == i;
  }

  /** The double word `i` places above the base is the little-endian composition of
      `data[i..i+8]`. */
  lemma ReadDwordAt(start: Word, data: seq<Byte>, i: Word)
    requires i < 0x8000_0000 && i as int + 8 <= |data| < 0x8000_0000
    ensures FromData(start, data).Read64(start + i) == Done(Le64(data[i..i as int + 8]))
  {
    assert (start + i) - start == i;
  }

  /** Past the end of the data, within the non-negative indices, every read is out of bounds. */
  lemma ReadPastEnd(start: Word, data: seq<Byte>, i: Word)
    requires i < 0x8000_0000 && |data| <= i as int && |data| < 0x8000_0000
    ensures FromData(start, data).Read8(start + i) == OutOfBounds
    ensures FromData(start, data).Read32(start + i) == OutOfBounds
  {
    assert (start + i) - start == i;
  }
}
