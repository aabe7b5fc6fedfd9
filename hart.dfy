/** The register and CSR file of one hart (`Hart.kt`; `CPU.kt` is an older copy of the same
    state and CSR logic with the privilege mode fixed at machine).
    The hart's state is a class whose fields the interpreter updates in place; `State()`
    is its value, and the pure functions below describe CSR reads and writes on that value. */
module Harts {
  import opened Words
  import opened Traps
  import opened Csr

  /** The value of the CSR state a hart keeps: the raw CSR slots, the 64-bit cycle counter
      and the `mstatus` fields. */
  datatype CsrFile = CsrFile(raw: seq<Word>, cycle: Dword, status: Status)

  /** The shape the CSR state keeps: 4096 slots and status fields of their widths. */
  predicate CsrFileValid(c: CsrFile)
  {
    |c.raw| == CSR_COUNT && StatusValid(c.status)
  }

  /** `readCSRRaw`: the counters are read from `cycle` and from the VM time (an input here),
      the machine information registers are constants, `mstatus` is packed from its fields,
      and every other number reads its raw slot. */
  function ReadCsrRaw(c: CsrFile, hartId: Word, csrNum: CsrNum, time: Dword): Word
    requires |c.raw| == CSR_COUNT
  {
    if csrNum == CYCLE || csrNum == MCYCLE || csrNum == INSTRET || csrNum == MINSTRET then Low32(c.cycle)
    else if csrNum == TIME then Low32(time)
    else if csrNum == CYCLEH || csrNum == MCYCLEH || csrNum == INSTRETH || csrNum == MINSTRETH then High32(c.cycle)
    else if csrNum == TIMEH then High32(time)
    else if csrNum == MISA || csrNum == MVENDORID || csrNum == MARCHID || csrNum == MIMPID then 0
    else if csrNum == MHARTID then hartId
    else if csrNum == MSTATUS then Pack(c.status)
    else c.raw[csrNum]
  }

  /** A CSR number that `readCSRRaw` and `writeCSRRaw` both send to the raw slot. */
  predicate IsRawCsr(csrNum: CsrNum)
  {
    csrNum != CYCLE && csrNum != MCYCLE && csrNum != INSTRET && csrNum != MINSTRET
    && csrNum != TIME && csrNum != CYCLEH && csrNum != MCYCLEH && csrNum != INSTRETH
    && csrNum != MINSTRETH && csrNum != TIMEH && csrNum != MISA && csrNum != MVENDORID
    && csrNum != MARCHID && csrNum != MIMPID && csrNum != MHARTID && csrNum != MSTATUS
  }

  /** `writeCSRRaw`: `mcycle`/`minstret` replace the low half of `cycle`, `mcycleh`/`minstreth`
      the high half, `mstatus` is unpacked into its fields, every other number is stored raw. */
  function WriteCsrRaw(c: CsrFile, csrNum: CsrNum, value: Word): CsrFile
    requires |c.raw| == CSR_COUNT
  {
    if csrNum == MCYCLE || csrNum == MINSTRET then c.(cycle := WithLow(c.cycle, value))
    else if csrNum == MCYCLEH || csrNum == MINSTRETH then c.(cycle := WithHigh(c.cycle, value))
    else if csrNum == MSTATUS then c.(status := Unpack(value))
    else c.(raw := c.raw[csrNum := value])
  }

  /** Writing a CSR keeps the CSR state well formed. */
  lemma WriteCsrRawValid(c: CsrFile, csrNum: CsrNum, value: Word)
    requires CsrFileValid(c)
    ensures CsrFileValid(WriteCsrRaw(c, csrNum, value))
  {
  }

  /** `mstatus` reads back the written value masked to the bits that have a field. */
  lemma ReadAfterWriteStatus(c: CsrFile, hartId: Word, value: Word, time: Dword)
    requires |c.raw| == CSR_COUNT
    ensures ReadCsrRaw(WriteCsrRaw(c, MSTATUS, value), hartId, MSTATUS, time) == value & MSTATUS_MASK
  {
    PackUnpack(value);
  }

  /** A write to `mcycle` or `minstret` shows in `cycle`, `mcycle`, `instret` and `minstret`,
      and the high half read through `cycleh` is unchanged. */
  lemma ReadAfterWriteCycleLow(c: CsrFile, hartId: Word, csrNum: CsrNum, value: Word, time: Dword)
    requires |c.raw| == CSR_COUNT && (csrNum == MCYCLE || csrNum == MINSTRET)
    ensures ReadCsrRaw(WriteCsrRaw(c, csrNum, value), hartId, CYCLE, time) == value
    ensures ReadCsrRaw(WriteCsrRaw(c, csrNum, value), hartId, CYCLEH, time) == ReadCsrRaw(c, hartId, CYCLEH, time)
  {
    WithLowHalves(c.cycle, value);
  }

  /** A write to `mcycleh` or `minstreth` shows in `cycleh`; the low half is unchanged. */
  lemma ReadAfterWriteCycleHigh(c: CsrFile, hartId: Word, csrNum: CsrNum, value: Word, time: Dword)
    requires |c.raw| == CSR_COUNT && (csrNum == MCYCLEH || csrNum == MINSTRETH)
    ensures ReadCsrRaw(WriteCsrRaw(c, csrNum, value), hartId, CYCLEH, time) == value
    ensures ReadCsrRaw(WriteCsrRaw(c, csrNum, value), hartId, CYCLE, time) == ReadCsrRaw(c, hartId, CYCLE, time)
  {
    WithHighHalves(c.cycle, value);
  }

  /** A raw CSR reads back what was written to it, and writing it changes no other CSR. */
  lemma ReadAfterWriteRaw(c: CsrFile, hartId: Word, csrNum: CsrNum, other: CsrNum, value: Word, time: Dword)
    requires |c.raw| == CSR_COUNT && IsRawCsr(csrNum)
    ensures ReadCsrRaw(WriteCsrRaw(c, csrNum, value), hartId, csrNum, time) == value
    ensures other != csrNum ==> ReadCsrRaw(WriteCsrRaw(c, csrNum, value), hartId, other, time) == ReadCsrRaw(c, hartId, other, time)
  {
  }

  /** The constant machine information registers read 0, whatever was written to their slots. */
  lemma ConstantCsrs(c: CsrFile, hartId: Word, time: Dword)
    requires |c.raw| == CSR_COUNT
    ensures ReadCsrRaw(c, hartId, MISA, time) == 0 && ReadCsrRaw(c, hartId, MVENDORID, time) == 0
    ensures ReadCsrRaw(c, hartId, MARCHID, time) == 0 && ReadCsrRaw(c, hartId, MIMPID, time) == 0
    ensures ReadCsrRaw(c, hartId, MHARTID, time) == hartId
  {
  }

  /** What a CSR instruction asks `updateCsr` to store, in place of the source's `write`
      lambda: nothing, a fixed value, or the old value OR'ed with or AND'ed with an operand. */
  datatype CsrWrite = NoWrite | Replace(value: Word) | SetBits(bits: Word) | KeepBits(bits: Word)

  /** The value the `write` lambda computes from the old CSR value. */
  function Written(w: CsrWrite, prior: Option<Word>): Word
    requires !w.NoWrite? && (w.SetBits? || w.KeepBits? ==> prior.Some?)
  {
    match w
    case Replace(v) => v
    case SetBits(b) => prior.value | b
    case KeepBits(b) => prior.value & b
  }

  /** What `updateCsr` returns: the old value (when asked to read), or the permission error it throws. */
  datatype CsrResult = Done(prior: Option<Word>) | Denied(failure: Failure)

  /** `updateCsr` on the CSR state of a hart in privilege mode `priv`: check the privilege
      level, read if asked, then write if asked and the CSR is writable. */
  function UpdateCsr(c: CsrFile, priv: nat, hartId: Word, csrNum: CsrNum, read: bool, write: CsrWrite, time: Dword): (CsrFile, CsrResult)
    requires |c.raw| == CSR_COUNT
    requires write.SetBits? || write.KeepBits? ==> read
  {
    if priv < Level(csrNum) then (c, Denied(NoReadPermission))
    else
      var prior := if read then Some(ReadCsrRaw(c, hartId, csrNum, time)) else None;
      if write.NoWrite? then (c, Done(prior))
      else if !Writable(csrNum) then (c, Denied(NoWritePermission))
      else (WriteCsrRaw(c, csrNum, Written(write, prior)), Done(prior))
  }

  /** A privilege level below the CSR's fails before any state changes. */
  lemma UpdateCsrPrivilege(c: CsrFile, priv: nat, hartId: Word, csrNum: CsrNum, read: bool, write: CsrWrite, time: Dword)
    requires |c.raw| == CSR_COUNT
    requires write.SetBits? || write.KeepBits? ==> read
    ensures priv < Level(csrNum) <==> UpdateCsr(c, priv, hartId, csrNum, read, write, time).1 == Denied(NoReadPermission)
    ensures priv < Level(csrNum) ==> UpdateCsr(c, priv, hartId, csrNum, read, write, time).0 == c
  {
  }

  /** A write request to a read-only CSR fails and leaves the state unchanged. */
  lemma UpdateCsrReadOnly(c: CsrFile, priv: nat, hartId: Word, csrNum: CsrNum, read: bool, write: CsrWrite, time: Dword)
    requires |c.raw| == CSR_COUNT
    requires write.SetBits? || write.KeepBits? ==> read
    requires !write.NoWrite? && !Writable(csrNum)
    ensures UpdateCsr(c, priv, hartId, csrNum, read, write, time).0 == c
    ensures UpdateCsr(c, priv, hartId, csrNum, read, write, time).1.Denied?
  {
  }

  /** When permitted, `updateCsr` returns the old value exactly when asked to read, and
      stores the write lambda's value exactly when a write was asked for. */
  lemma UpdateCsrPermitted(c: CsrFile, priv: nat, hartId: Word, csrNum: CsrNum, read: bool, write: CsrWrite, time: Dword)
    requires |c.raw| == CSR_COUNT
    requires write.SetBits? || write.KeepBits? ==> read
    requires priv >= Level(csrNum) && (write.NoWrite? || Writable(csrNum))
    ensures var (t, r) := UpdateCsr(c, priv, hartId, csrNum, read, write, time);
      r.Done? && (r.prior.Some? <==> read) && (read ==> r.prior.value == ReadCsrRaw(c, hartId, csrNum, time))
      && (write.NoWrite? ==> t == c)
      && (!write.NoWrite? ==> t == WriteCsrRaw(c, csrNum, Written(write, r.prior)))
  {
  }

  /** With the privilege mode fixed at machine, as in `CPU.kt`, the privilege check never
      fails: only a write to a read-only CSR is refused. */
  lemma MachineModeOnlyReadOnlyFails(c: CsrFile, hartId: Word, csrNum: CsrNum, read: bool, write: CsrWrite, time: Dword)
    requires |c.raw| == CSR_COUNT
    requires write.SetBits? || write.KeepBits? ==> read
    ensures UpdateCsr(c, MACHINE, hartId, csrNum, read, write, time).1.Denied? <==> !write.NoWrite? && !Writable(csrNum)
  {
  }

  /** The CSR numbers whose writes land in the cycle counter. */
  predicate IsCounterCsr(csrNum: CsrNum)
  {
    csrNum == MCYCLE || csrNum == MINSTRET || csrNum == MCYCLEH || csrNum == MINSTRETH
  }

  /** Only a write to `mcycle`, `minstret` or their high halves changes the cycle counter. */
  lemma UpdateCsrKeepsCounter(c: CsrFile, priv: nat, hartId: Word, csrNum: CsrNum, read: bool, write: CsrWrite, time: Dword)
    requires |c.raw| == CSR_COUNT
    requires write.SetBits? || write.KeepBits? ==> read
    requires !IsCounterCsr(csrNum)
    ensures UpdateCsr(c, priv, hartId, csrNum, read, write, time).0.cycle == c.cycle
  {
  }

  /** `setx`: a write to x0 is dropped; a write to any other register replaces that register. */
  function SetReg(regs: seq<Word>, rd: nat, value: Word): (r: seq<Word>)
    requires rd < |regs|
    ensures |r| == |regs|
    ensures rd != 0 ==> r[rd] == value
    ensures forall i :: 0 <= i < |regs| && (i == 0 || i != rd) ==> r[i] == regs[i]
  {
    if rd == 0 then regs else regs[rd := value]
  }

  /** The reset value of `mtimecmp` (`Long.MAX_VALUE`). */
  const MTIMECMP_RESET: Dword := 0x7FFF_FFFF_FFFF_FFFF

  /** The pc a hart starts at. */
  const RESET_PC: Word := 0x8000_0000

  /** The state of one hart (`Hart`; `CPU` keeps the same fields without `mtimecmp` and
      `MSIP`). `satpPpn` and `satpMode` are read by address translation but declared nowhere
      in the source; here they are plain fields. */
  class Hart {
    const x: array<Word>
    const d: array<Dword>
    const csr: array<Word>
    var pc: Word
    var cycle: Dword
    var mtimecmp: Dword
    var status: Status
    var msip: Word
    var priv: nat
    const hartId: Word
    var updatePc: bool
    var satpPpn: Word
    var satpMode: Word

    /** The value of the CSR state. */
    function Csrs(): CsrFile
      reads `cycle, `status, csr
    {
      CsrFile(csr[..], cycle, status)
    }

    ghost predicate Valid()
      reads this, x, d, csr
    {
      x.Length == 32 && d.Length == 32 && csr.Length == CSR_COUNT && x != csr
      && x[0] == 0 && StatusValid(status) && priv <= MACHINE
    }

    /** The fields outside the CSR state are as before. */
    twostate predicate OnlyCsrsChanged()
      reads this
    {
      pc == old(pc) && mtimecmp == old(mtimecmp) && msip == old(msip) && priv == old(priv)
      && updatePc == old(updatePc) && satpPpn == old(satpPpn) && satpMode == old(satpMode)
    }

    /** Only the pc and the `update_pc` flag may differ from before. */
    twostate predicate OnlyPcChanged()
      reads this
    {
      cycle == old(cycle) && mtimecmp == old(mtimecmp) && status == old(status) && msip == old(msip)
      && priv == old(priv) && satpPpn == old(satpPpn) && satpMode == old(satpMode)
    }

    /** A hart after reset: every register and CSR zero, pc 0x8000_0000, machine mode. */
    constructor ()
      ensures Valid() && fresh(x) && fresh(d) && fresh(csr)
      ensures x[..] == seq(32, _ => 0) && d[..] == seq(32, _ => 0)
      ensures Csrs() == CsrFile(seq(CSR_COUNT, _ => 0), 0, RESET_STATUS)
      ensures pc == RESET_PC && mtimecmp == MTIMECMP_RESET && msip == 0 && priv == MACHINE
      ensures hartId == 0 && updatePc && satpPpn == 0 && satpMode == 0
    {
      x := new Word[32](_ => 0);
      d := new Dword[32](_ => 0);
      csr := new Word[CSR_COUNT](_ => 0);
      pc := RESET_PC;
      cycle := 0;
      mtimecmp := MTIMECMP_RESET;
      status := RESET_STATUS;
      msip := 0;
      priv := MACHINE;
      hartId := 0;
      updatePc := true;
      satpPpn := 0;
      satpMode := 0;
    }

    /** `setx` on the register array. */
    method SetX(rd: nat, value: Word)
      requires Valid() && rd < 32
      modifies x
      ensures Valid()
      ensures x[..] == SetReg(old(x[..]), rd, value)
    {
      if rd == 0 {
        return;
      }
      x[rd] := value;
    }

    /** A write to a floating-point register (`d[rd] = ...`); every register can be written. */
    method SetD(rd: nat, value: Dword)
      requires Valid() && rd < 32
      modifies d
      ensures Valid()
      ensures d[..] == old(d[..])[rd := value]
    {
      d[rd] := value;
    }

    /** `writeCSRRaw` on the hart's fields. */
    method WriteCsr(csrNum: CsrNum, value: Word)
      requires Valid()
      modifies this, csr
      ensures Valid() && OnlyCsrsChanged()
      ensures Csrs() == WriteCsrRaw(old(Csrs()), csrNum, value)
    {
      if csrNum == MCYCLE || csrNum == MINSTRET {
        cycle := WithLow(cycle, value);
      } else if csrNum == MCYCLEH || csrNum == MINSTRETH {
        cycle := WithHigh(cycle, value);
      } else if csrNum == MSTATUS {
        WriteMachineStatus(value);
      } else {
        csr[csrNum] := value;
      }
    }

    /** `writeMachineStatusRaw`: every field takes its bits of the value. */
    method WriteMachineStatus(value: Word)
      requires Valid()
      modifies this
      ensures Valid() && OnlyCsrsChanged()
      ensures cycle == old(cycle) && status == Unpack(value)
    {
      status := Unpack(value);
    }

    /** `updateCsr` on the hart: the result and the new state are those of `UpdateCsr`. */
    method UpdateCsrOn(csrNum: CsrNum, read: bool, write: CsrWrite, time: Dword) returns (r: CsrResult)
      requires Valid()
      requires write.SetBits? || write.KeepBits? ==> read
      modifies this, csr
      ensures Valid() && OnlyCsrsChanged()
      ensures (Csrs(), r) == UpdateCsr(old(Csrs()), priv, hartId, csrNum, read, write, time)
    {
      if priv < Level(csrNum) {
        return Denied(NoReadPermission);
      }
      var prev := if read then Some(ReadCsrRaw(Csrs(), hartId, csrNum, time)) else None;
      if !write.NoWrite? {
        if Writable(csrNum) {
          WriteCsr(csrNum, Written(write, prev));
        } else {
          return Denied(NoWritePermission);
        }
      }
      return Done(prev);
    }
  }
}
