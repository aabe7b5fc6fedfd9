/** `RAMSizeDevice`: a read-only register, just below the RAM, that reports the RAM's size.
    Of the RAM it needs only `start` and `length`, which `resize` leaves alone, so the device
    is a value over those two words. Its writes have empty bodies. */
module RamSizeDevice {
  import opened Words

  datatype RamSize = RamSize(ramStart: Word, ramLength: Word)
  {
    /** The register's address: the RAM's base less one, rounded down to 64 KiB. */
    function Start(): Word
    {
      (ramStart - 1) & 0xFFFF_0000
    }

    function Read32(offset: Word): Word
    {
      if offset == Start() then ramLength else 0
    }

    function Read8(offset: Word): Byte
    {
      Low8(Read32(offset))
    }

    function Read16(offset: Word): Half
    {
      Low16(Read32(offset))
    }

    function Read64(offset: Word): Dword
    {
      SignExtend32(Read32(offset))
    }
  }

  /** The device spans four bytes. */
  const LENGTH: Word := 4

  /** The register sits on a 64 KiB boundary below a RAM at a non-zero base, within the
      64 KiB before it; for RAM at 0x80000000 it is at 0x7FFF0000. */
  lemma StartBelowRam(d: RamSize)
    requires d.ramStart != 0
    ensures d.Start() & 0xFFFF == 0
    ensures d.Start() < d.ramStart && d.ramStart - d.Start() <= 0x1_0000
    ensures d.ramStart == 0x8000_0000 ==> d.Start() == 0x7FFF_0000
  {
  }

  /** The size is read at the register's address and nowhere else, and the narrow and wide
      reads are its truncations and sign extension. */
  lemma ReadsSize(d: RamSize, offset: Word)
    ensures d.Read32(d.Start()) == d.ramLength
    ensures offset != d.Start() ==> d.Read8(offset) == 0 && d.Read16(offset) == 0 && d.Read64(offset) == 0
    ensures Low32(d.Read64(offset)) == d.Read32(offset)
    ensures d.Read8(d.Start()) == Low8(d.ramLength)
  {
  }
}
