/** Control and status registers: their numbers, the access rules encoded in a CSR number
    (section 2.1 of the RISC-V Privileged ISA, version 20190608), the packing of the
    `mstatus` fields (section 3.1.6) and the split 64-bit cycle counter. */
module Csr {
  import opened Words

  /** A CSR number: the 12-bit field of a CSR instruction, an index into the CSR slots. */
  type CsrNum = n: nat | n < 0x1000

  // CSR numbers (`CSR_ID`) that the register file treats specially.
  const CYCLE: CsrNum := 0xC00
  const TIME: CsrNum := 0xC01
  const INSTRET: CsrNum := 0xC02
  const CYCLEH: CsrNum := 0xC80
  const TIMEH: CsrNum := 0xC81
  const INSTRETH: CsrNum := 0xC82
  const MVENDORID: CsrNum := 0xF11
  const MARCHID: CsrNum := 0xF12
  const MIMPID: CsrNum := 0xF13
  const MHARTID: CsrNum := 0xF14
  const MSTATUS: CsrNum := 0x300
  const MISA: CsrNum := 0x301
  const MCYCLE: CsrNum := 0xB00
  const MINSTRET: CsrNum := 0xB02
  const MCYCLEH: CsrNum := 0xB80
  const MINSTRETH: CsrNum := 0xB82

  /** Number of CSR slots. */
  const CSR_COUNT: int := 4096

  /** Lowest privilege level allowed to access the CSR: bits 9:8 of its number. */
  function Level(csrNum: CsrNum): (l: nat)
    ensures l <= 3
  {
    (csrNum / 0x100) % 4
  }

  /** Bits 11:10 equal to `11` mark a read-only CSR. */
  predicate Writable(csrNum: CsrNum)
  {
    (csrNum / 0x400) % 4 != 3
  }

  /** Every CSR numbered 0xC00 and above is read-only; every one below is writable. */
  lemma WritableBelowC00(csrNum: CsrNum)
    ensures Writable(csrNum) <==> csrNum < 0xC00
  {
  }

  /** The level is the second hex digit of the number, taken mod 4: the machine-level ranges
      0x300-0x3FF, 0xB00-0xBFF and 0xF00-0xFFF need level 3, the user counters 0xC00-0xCFF level 0,
      the supervisor range 0x100-0x1FF level 1. */
  lemma LevelRanges(csrNum: CsrNum)
    ensures (0x300 <= csrNum < 0x400 || 0xB00 <= csrNum < 0xC00 || 0xF00 <= csrNum) ==> Level(csrNum) == 3
    ensures 0xC00 <= csrNum < 0xD00 ==> Level(csrNum) == 0
    ensures 0x100 <= csrNum < 0x200 ==> Level(csrNum) == 1
  {
  }

  /** The writable fields of `mstatus`. SD, XS and FS are constant zero and have no field. */
  datatype Status = Status(
    tsr: Word, tw: Word, tvm: Word, mxr: Word, sum: Word, mprv: Word,
    mpp: Word, spp: Word, mpie: Word, spie: Word, upie: Word, mie: Word, sie: Word, uie: Word)

  /** The fields hold values of their width: MPP two bits, the others one bit. */
  predicate StatusValid(s: Status)
  {
    s.tsr <= 1 && s.tw <= 1 && s.tvm <= 1 && s.mxr <= 1 && s.sum <= 1 && s.mprv <= 1
    && s.mpp <= 3 && s.spp <= 1 && s.mpie <= 1 && s.spie <= 1 && s.upie <= 1
    && s.mie <= 1 && s.sie <= 1 && s.uie <= 1
  }

  /** All fields zero: the state after reset. */
  const RESET_STATUS: Status := Status(0, 0, 0, 0, 0, 0, 0, 0, 0, 0, 0, 0, 0, 0)

  // The unsupported extension-state fields, which always read as zero.
  const SD: Word := 0
  const XS: Word := 0
  const FS: Word := 0

  /** The bits of `mstatus` that have a backing field. */
  const MSTATUS_MASK: Word := 0x007E_19BB

  /** `readMachineStatusRaw`: each field shifted to its position in `mstatus`. */
  function Pack(s: Status): Word
  {
    (SD << 31) | (s.tsr << 22) | (s.tw << 21) | (s.tvm << 20) | (s.mxr << 19) | (s.sum << 18)
    | (s.mprv << 17) | (XS << 15) | (FS << 13) | (s.mpp << 11) | (s.spp << 8) | (s.mpie << 7)
    | (s.spie << 5) | (s.upie << 4) | (s.mie << 3) | (s.sie << 1) | (s.uie << 0)
  }

  /** `writeMachineStatusRaw`: each field taken from its position in `value`. The shifted
      value is masked to the field's width, so the arithmetic shift of the source and a
      logical shift give the same field. */
  function Unpack(value: Word): (s: Status)
    ensures StatusValid(s)
  {
    Status(
      (value >> 22) & 1, (value >> 21) & 1, (value >> 20) & 1, (value >> 19) & 1,
      (value >> 18) & 1, (value >> 17) & 1, (value >> 11) & 3, (value >> 8) & 1,
      (value >> 7) & 1, (value >> 5) & 1, (value >> 4) & 1, (value >> 3) & 1,
      (value >> 1) & 1, (value >> 0) & 1)
  }

  /** Writing `mstatus` and reading it back keeps exactly the bits that have a field. */
  lemma PackUnpack(value: Word)
    ensures Pack(Unpack(value)) == value & MSTATUS_MASK
  {
  }

  /** SD (bit 31), XS (bits 16:15) and FS (bits 14:13) always read as zero. */
  lemma PackUnsupportedZero(s: Status)
    requires StatusValid(s)
    ensures Pack(s) & 0x8001_E000 == 0
  {
  }

  /** Reading `mstatus` and writing the value back changes no field. */
  lemma UnpackPack(s: Status)
    requires StatusValid(s)
    ensures Unpack(Pack(s)) == s
  {
  }

  /** Writing the low half of `cycle` (`mcycle`/`minstret`). The source masks the
      sign-extended value with 0xFFFF_FFFF, which is its zero extension. */
  function WithLow(cycle: Dword, value: Word): Dword
  {
    (cycle & 0xFFFF_FFFF_0000_0000) | (value as bv64)
  }

  /** Writing the high half of `cycle` (`mcycleh`/`minstreth`). */
  function WithHigh(cycle: Dword, value: Word): Dword
  {
    (cycle & 0xFFFF_FFFF) | ((value as bv64) << 32)
  }

  /** A write to `mcycle` replaces the low half of the counter and keeps the high half. */
  lemma WithLowHalves(cycle: Dword, value: Word)
    ensures WithLow(cycle, value) == Join64(High32(cycle), value)
    ensures Low32(WithLow(cycle, value)) == value
    ensures High32(WithLow(cycle, value)) == High32(cycle)
  {
    assert WithLow(cycle, value) == Join64(High32(cycle), value);
  }

  /** A write to `mcycleh` replaces the high half of the counter and keeps the low half. */
  lemma WithHighHalves(cycle: Dword, value: Word)
    ensures WithHigh(cycle, value) == Join64(value, Low32(cycle))
    ensures High32(WithHigh(cycle, value)) == value
    ensures Low32(WithHigh(cycle, value)) == Low32(cycle)
  {
    assert WithHigh(cycle, value) == Join64(value, Low32(cycle));
  }
}
