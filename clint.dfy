/** `CLINTDevice`: the core-local interruptor of the SiFive E31 (its memory map, chapter
    "Core Local Interruptor" of the SiFive E31 Core Complex Manual, v19.08): a software
    interrupt word `msip` per hart at 0x0200_0000 + 4·hart, a 64-bit timer compare
    `mtimecmp` per hart at 0x0200_4000 + 8·hart, and the 64-bit clock `mtime` at
    0x0200_BFF8. Only 32- and 64-bit accesses reach a register. */
module ClintDevice {
  import opened Words
  import opened Harts
  import Physical

  const BASE: Word := 0x0200_0000
  const LENGTH: Word := 0xFFFF

  /** A 32-bit slot of the device, or none. */
  datatype Register = Msip(hart: Word) | MtimecmpLow(hart: Word) | MtimecmpHigh(hart: Word) | MtimeLow | MtimeHigh | NoRegister
  {
    predicate OfHart()
    {
      Msip? || MtimecmpLow? || MtimecmpHigh?
    }
  }

  /** The slot a 32-bit access at `offset` names, whether or not its hart exists. Offsets
      are not checked for alignment: within a region the index is rounded down. The
      unsigned `/ 4`, `/ 8` and `% 8` of the source are written as the equal shifts and mask. */
  function Slot(offset: Word): Register
  {
    if BASE <= offset <= 0x0200_3FFF then Msip((offset - BASE) >> 2)
    else if 0x0200_4000 <= offset <= 0x0200_BFF0 then
      var h := (offset - 0x0200_4000) >> 3;
      if offset & 7 == 4 then MtimecmpHigh(h) else MtimecmpLow(h)
    else if offset == 0x0200_BFF8 then MtimeLow
    else if offset == 0x0200_BFFC then MtimeHigh
    else NoRegister
  }

  /** A slot of a hart that does not exist is ignored (`hart < vm.harts.size`). */
  function Present(r: Register, count: nat): (p: Register)
    ensures p.OfHart() ==> p.hart as int < count
    ensures p == r || p == NoRegister
  {
    if r.OfHart() && r.hart as int >= count then NoRegister else r
  }

  /** The slot a 32-bit access at `offset` reaches with `count` harts present. */
  function Decode(offset: Word, count: nat): Register
  {
    Present(Slot(offset), count)
  }

  /** Where each slot lives: the partner of `Slot`. */
  function Address(r: Register): Word
    requires r.OfHart() ==> if r.Msip? then r.hart < 0x1000 else r.hart < 0xFFE
  {
    match r
    case Msip(h) => BASE + (h << 2)
    case MtimecmpLow(h) => 0x0200_4000 + (h << 3)
    case MtimecmpHigh(h) => 0x0200_4004 + (h << 3)
    case MtimeLow => 0x0200_BFF8
    case MtimeHigh => 0x0200_BFFC
    case NoRegister => 0
  }

  /** The bit facts behind `SlotMsip`. */
  lemma MsipFacts(h: Word)
    requires h < 0x1000
    ensures BASE <= BASE + (h << 2) <= 0x0200_3FFF
    ensures ((BASE + (h << 2)) - BASE) >> 2 == h
  {
  }

  lemma SlotMsip(h: Word)
    requires h < 0x1000
    ensures Slot(BASE + (h << 2)) == Msip(h)
  {
    MsipFacts(h);
  }

  /** The bit facts behind `SlotMtimecmp`. */
  lemma MtimecmpFacts(h: Word)
    requires h < 0xFFE
    ensures var lo := 0x0200_4000 + (h << 3);
      0x0200_3FFF < lo <= 0x0200_BFF0 && (lo - 0x0200_4000) >> 3 == h && lo & 7 == 0
    ensures var hi := 0x0200_4004 + (h << 3);
      0x0200_3FFF < hi <= 0x0200_BFF0 && (hi - 0x0200_4000) >> 3 == h && hi & 7 == 4
  {
  }

  lemma SlotMtimecmp(h: Word)
    requires h < 0xFFE
    ensures Slot(0x0200_4000 + (h << 3)) == MtimecmpLow(h)
    ensures Slot(0x0200_4004 + (h << 3)) == MtimecmpHigh(h)
  {
    MtimecmpFacts(h);
  }

  /** Every slot is named at its own address. */
  lemma SlotAddress(r: Register)
    requires !r.NoRegister?
    requires r.OfHart() ==> if r.Msip? then r.hart < 0x1000 else r.hart < 0xFFE
    ensures Slot(Address(r)) == r
  {
    match r
    case Msip(h) => SlotMsip(h);
    case MtimecmpLow(h) => SlotMtimecmp(h);
    case MtimecmpHigh(h) => SlotMtimecmp(h);
    case MtimeLow =>
    case MtimeHigh =>
  }

  /** Every slot of an existing hart, and each word of the clock, is decoded at its own
      address. */
  lemma DecodeAddress(r: Register, count: nat)
    requires !r.NoRegister?
    requires r.OfHart() ==> r.hart as int < count && if r.Msip? then r.hart < 0x1000 else r.hart < 0xFFE
    ensures Decode(Address(r), count) == r
  {
    SlotAddress(r);
  }

  /** The slot `read32` names as written: the timer compares are indexed from the device
      base rather than from 0x0200_4000, and the high word of `mtime` is not decoded (its
      `offset % 8 == 4` test runs only at 0x0200_BFF8). */
  function ReadSlotAsWritten(offset: Word): Register
  {
    if BASE <= offset <= 0x0200_3FFF then Msip((offset - BASE) >> 2)
    else if 0x0200_4000 <= offset <= 0x0200_BFF0 then
      var h := (offset - BASE) >> 3;
      if offset & 7 == 4 then MtimecmpHigh(h) else MtimecmpLow(h)
    else if offset == 0x0200_BFF8 then MtimeLow
    else NoRegister
  }

  function ReadDecodeAsWritten(offset: Word, count: nat): Register
  {
    Present(ReadSlotAsWritten(offset), count)
  }

  /** The slot `write32` names as written: its first range covers the whole device, so
      every write is taken to be an `msip` write. */
  function WriteSlotAsWritten(offset: Word): Register
  {
    if BASE <= offset <= 0x0200_FFFF then Msip((offset - BASE) >> 2) else NoRegister
  }

  function WriteDecodeAsWritten(offset: Word, count: nat): Register
  {
    Present(WriteSlotAsWritten(offset), count)
  }

  /** With at most 2048 harts no timer compare can be read as written. */
  lemma MtimecmpUnreadAsWritten(offset: Word, count: nat)
    requires count <= 0x800
    ensures !ReadDecodeAsWritten(offset, count).MtimecmpLow?
    ensures !ReadDecodeAsWritten(offset, count).MtimecmpHigh?
    ensures ReadDecodeAsWritten(0x0200_4000, 1) == NoRegister && Decode(0x0200_4000, 1) == MtimecmpLow(0)
  {
  }

  /** The high word of `mtime` is not readable as written. */
  lemma MtimeHighUnreadAsWritten(count: nat)
    ensures ReadDecodeAsWritten(0x0200_BFFC, count) == NoRegister
    ensures Decode(0x0200_BFFC, count) == MtimeHigh
  {
  }

  /** As written, no write reaches a timer compare or the clock: one hart's `mtimecmp` write
      at 0x0200_4000 sets nothing, where the layout has it set hart 0's low word. */
  lemma TimerWritesShadowedAsWritten(offset: Word, count: nat)
    ensures WriteDecodeAsWritten(offset, count).Msip? || WriteDecodeAsWritten(offset, count).NoRegister?
    ensures WriteDecodeAsWritten(0x0200_4000, 1) == NoRegister && Decode(0x0200_4000, 1) == MtimecmpLow(0)
    ensures WriteDecodeAsWritten(0x0200_BFF8, 1) == NoRegister && Decode(0x0200_BFF8, 1) == MtimeLow
  {
  }

  /** `read64` as written: the low word is sign-extended before the high word is or-ed in,
      so a low word with bit 31 set fills the high half with ones. */
  function Combine64AsWritten(hi: Word, lo: Word): Dword
  {
    SignExtend32(lo) | ((hi as Dword) << 32)
  }

  lemma Combine64AsWrittenSmearsHigh()
    ensures Combine64AsWritten(0, 0x8000_0000) == 0xFFFF_FFFF_8000_0000
    ensures Join64(0, 0x8000_0000) == 0x8000_0000
  {
  }

  /** As written, `read64` joins the two words correctly only when the low word is
      non-negative; otherwise the high half is all ones. */
  lemma Combine64AsWrittenNonNegative(hi: Word, lo: Word)
    requires lo < 0x8000_0000
    ensures Combine64AsWritten(hi, lo) == Join64(hi, lo)
  {
    assert SignExtend32(lo) == Join64(0, lo);
    assert Join64(0, lo) == lo as bv64;
  }

  lemma Combine64AsWrittenNegative(hi: Word, lo: Word)
    requires lo >= 0x8000_0000
    ensures High32(Combine64AsWritten(hi, lo)) == 0xFFFF_FFFF
  {
  }

  /** A write of the low word of a 64-bit register, as written: the new word is
      sign-extended before it is or-ed in, so a word with bit 31 set fills the high half. */
  function SetLowAsWritten(old64: Dword, v: Word): Dword
  {
    (old64 & 0xFFFF_FFFF_0000_0000) | SignExtend32(v)
  }

  lemma SetLowAsWrittenSmearsHigh()
    ensures SetLowAsWritten(0, 0x8000_0000) == 0xFFFF_FFFF_8000_0000
    ensures High32(SetLowAsWritten(0, 0x8000_0000)) != High32(0)
  {
  }

  /** A write of the low word of a 64-bit register: only the low half changes. */
  function SetLow(old64: Dword, v: Word): (r: Dword)
    ensures Low32(r) == v && High32(r) == High32(old64)
  {
    Join64(High32(old64), v)
  }

  /** A write of the high word, as the source has it: only the high half changes. */
  function SetHigh(old64: Dword, v: Word): (r: Dword)
    ensures High32(r) == v && Low32(r) == Low32(old64)
  {
    (old64 & 0xFFFF_FFFF) | ((v as Dword) << 32)
  }

  /** Writing the low word and then the high word stores the whole double word. */
  lemma SetHalves(old64: Dword, v: Dword)
    ensures SetHigh(SetLow(old64, Low32(v)), High32(v)) == v
  {
    Physical.Halves64(v);
  }

  /** The `msip` value a 32-bit write stores: 1 for a positive `Int`, else 0. */
  function MsipOf(value: Word): (r: Word)
    ensures r <= 1
    ensures r == 1 <==> value != 0 && value < 0x8000_0000
  {
    if value != 0 && value < 0x8000_0000 then 1 else 0
  }

  /** The hart fields the CLINT never writes are as before. */
  twostate predicate KeepsCore(h: Hart)
    reads h
  {
    h.pc == old(h.pc) && h.cycle == old(h.cycle) && h.status == old(h.status) && h.priv == old(h.priv)
    && h.updatePc == old(h.updatePc) && h.satpPpn == old(h.satpPpn) && h.satpMode == old(h.satpMode)
  }

  /** The device, over the machine's harts and its clock (`readTime`/`writeTime` of the VM,
      which are not part of this model, become the field `time`). */
  class Clint {
    const harts: seq<Hart>
    var time: Dword

    ghost predicate Valid()
      reads this
    {
      forall i, j :: 0 <= i < j < |harts| ==> harts[i] != harts[j]
    }

    constructor (harts: seq<Hart>, time: Dword)
      requires forall i, j :: 0 <= i < j < |harts| ==> harts[i] != harts[j]
      ensures Valid() && this.harts == harts && this.time == time
    {
      this.harts := harts;
      this.time := time;
    }

    /** The objects a write to slot `r` may change. */
    function Target(r: Register): set<object>
      requires r.OfHart() ==> r.hart as int < |harts|
      reads this
    {
      if r.OfHart() then {harts[r.hart]} else if r.MtimeLow? || r.MtimeHigh? then {this} else {}
    }

    function Value(r: Register): Word
      requires r.OfHart() ==> r.hart as int < |harts|
      reads this, harts
    {
      match r
      case Msip(h) => harts[h].msip
      case MtimecmpLow(h) => Low32(harts[h].mtimecmp)
      case MtimecmpHigh(h) => High32(harts[h].mtimecmp)
      case MtimeLow => Low32(time)
      case MtimeHigh => High32(time)
      case NoRegister => 0
    }

    /** `read32`: the contents of the decoded slot; 0 where no slot of an existing hart is. */
    function Read32(offset: Word): (w: Word)
      reads this, harts
      ensures Decode(offset, |harts|) == NoRegister ==> w == 0
      ensures var r := Decode(offset, |harts|); r.Msip? ==> w == harts[r.hart].msip
      ensures var r := Decode(offset, |harts|); r.MtimecmpLow? ==> w == Low32(harts[r.hart].mtimecmp)
      ensures var r := Decode(offset, |harts|); r.MtimecmpHigh? ==> w == High32(harts[r.hart].mtimecmp)
      ensures Decode(offset, |harts|) == MtimeLow ==> w == Low32(time)
      ensures Decode(offset, |harts|) == MtimeHigh ==> w == High32(time)
    {
      Value(Decode(offset, |harts|))
    }

    /** `read64`: the word at `offset` and the one above it, joined. */
    function Read64(offset: Word): (r: Dword)
      reads this, harts
      ensures Low32(r) == Read32(offset) && High32(r) == Read32(offset + 4)
    {
      Join64(Read32(offset + 4), Read32(offset))
    }

    /** `read32` as written: the slot it names, or 0. */
    function Read32AsWritten(offset: Word): (w: Word)
      reads this, harts
      ensures ReadDecodeAsWritten(offset, |harts|) == NoRegister ==> w == 0
    {
      Value(ReadDecodeAsWritten(offset, |harts|))
    }

    /** `read64` as written: the low word is the word `read32` gives, and one with bit 31
        set fills the high half with ones whatever lies above it. */
    function Read64AsWritten(offset: Word): (r: Dword)
      reads this, harts
      ensures Low32(r) == Read32AsWritten(offset)
    {
      Combine64AsWritten(Read32AsWritten(offset + 4), Read32AsWritten(offset))
    }

    /** Slot `r` took the word `value` (`msip` takes 1 for a positive word and 0 otherwise),
        its new contents read back, and nothing else of its hart changed. */
    twostate predicate Stored(r: Register, value: Word)
      requires r.OfHart() ==> r.hart as int < |harts|
      reads this, harts
    {
      && (r.Msip? ==> harts[r.hart].msip == MsipOf(value) && harts[r.hart].mtimecmp == old(harts[r.hart].mtimecmp))
      && (r.MtimecmpLow? ==> harts[r.hart].mtimecmp == SetLow(old(harts[r.hart].mtimecmp), value))
      && (r.MtimecmpHigh? ==> harts[r.hart].mtimecmp == SetHigh(old(harts[r.hart].mtimecmp), value))
      && (r.MtimecmpLow? || r.MtimecmpHigh? ==> harts[r.hart].msip == old(harts[r.hart].msip))
      && (r.OfHart() ==> KeepsCore(harts[r.hart]))
      && (r.MtimeLow? ==> time == SetLow(old(time), value))
      && (r.MtimeHigh? ==> time == SetHigh(old(time), value))
      && (!r.NoRegister? ==> Value(r) == if r.Msip? then MsipOf(value) else value)
    }

    method WriteSlot(r: Register, value: Word)
      requires Valid() && (r.OfHart() ==> r.hart as int < |harts|)
      modifies Target(r)
      ensures Stored(r, value)
    {
      match r
      case Msip(h) => harts[h].msip := MsipOf(value);
      case MtimecmpLow(h) => harts[h].mtimecmp := SetLow(harts[h].mtimecmp, value);
      case MtimecmpHigh(h) => harts[h].mtimecmp := SetHigh(harts[h].mtimecmp, value);
      case MtimeLow => time := SetLow(time, value);
      case MtimeHigh => time := SetHigh(time, value);
      case NoRegister =>
    }

    /** `write32`: the decoded slot takes the word; nothing else changes. */
    method Write32(offset: Word, value: Word)
      requires Valid()
      modifies Target(Decode(offset, |harts|))
      ensures Stored(Decode(offset, |harts|), value)
    {
      WriteSlot(Decode(offset, |harts|), value);
    }

    /** `write32` as written: every offset of the device is taken for an `msip` word, so
        a write sets at most one hart's `msip` and never a timer compare or the clock. */
    method Write32AsWritten(offset: Word, value: Word)
      requires Valid()
      modifies Target(WriteDecodeAsWritten(offset, |harts|))
      ensures Stored(WriteDecodeAsWritten(offset, |harts|), value)
      ensures forall i :: 0 <= i < |harts| ==> harts[i].mtimecmp == old(harts[i].mtimecmp)
      ensures time == old(time)
    {
      TimerWritesShadowedAsWritten(offset, |harts|);
      WriteSlot(WriteDecodeAsWritten(offset, |harts|), value);
    }

    /** `write64` as written: two `msip` writes, so no double word is ever stored in a timer
        compare or the clock. */
    method Write64AsWritten(offset: Word, value: Dword)
      requires Valid()
      modifies Target(WriteDecodeAsWritten(offset, |harts|)), Target(WriteDecodeAsWritten(offset + 4, |harts|))
      ensures forall i :: 0 <= i < |harts| ==> harts[i].mtimecmp == old(harts[i].mtimecmp)
      ensures time == old(time)
    {
      Write32AsWritten(offset, Low32(value));
      Write32AsWritten(offset + 4, High32(value));
    }

    /** `write64`: the low word at `offset`, then the high word above it. At the low word of
        a timer compare or of the clock the whole double word is stored; an `msip` word above
        `offset` takes the high word. */
    method Write64(offset: Word, value: Dword)
      requires Valid()
      modifies Target(Decode(offset, |harts|)), Target(Decode(offset + 4, |harts|))
      ensures var r := Decode(offset, |harts|);
        r.MtimecmpLow? && Decode(offset + 4, |harts|) == MtimecmpHigh(r.hart) ==>
          harts[r.hart].mtimecmp == value && harts[r.hart].msip == old(harts[r.hart].msip)
      ensures Decode(offset, |harts|) == MtimeLow && Decode(offset + 4, |harts|) == MtimeHigh ==> time == value
      ensures var q := Decode(offset + 4, |harts|);
        q.Msip? ==> harts[q.hart].msip == MsipOf(High32(value))
    {
      Write32(offset, Low32(value));
      Write32(offset + 4, High32(value));
      var r := Decode(offset, |harts|);
      SetHalves(old(time), value);
      if r.MtimecmpLow? {
        SetHalves(old(harts[r.hart].mtimecmp), value);
      }
    }
  }
}
