/** The `system` handler: the privileged instructions selected by the I-immediate when
    `funct3` is PRIV (ECALL, EBREAK and the trap returns), and the six CSR instructions,
    which go through `updateCsr`. */
module SystemOps {
  import opened Words
  import opened Traps
  import opened Instruction
  import opened Csr
  import opened Harts

  /** The instructions of `funct3` PRIV. */
  datatype PrivOp = ECall | EBreak | MRet | SRet | URet | PrivIllegal

  /** The classification of the immediate as written: the constants the source calls MRET
      and URET are the encodings of URET and MRET. */
  function PrivOpAsWritten(imm: Word): PrivOp
  {
    if imm == 0x000 then ECall
    else if imm == 0x001 then EBreak
    else if imm == 0x002 then MRet
    else if imm == 0x102 then SRet
    else if imm == 0x302 then URet
    else PrivIllegal
  }

  /** The classification by the encodings of the privileged ISA (section 3.2.2 of the
      RISC-V Privileged ISA, version 20190608): `mret` is 0x302, `sret` 0x102, `uret` 0x002. */
  function PrivOpOf(imm: Word): (op: PrivOp)
    ensures op == MRet <==> imm == 0x302
    ensures op == URet <==> imm == 0x002
  {
    if imm == 0x000 then ECall
    else if imm == 0x001 then EBreak
    else if imm == 0x302 then MRet
    else if imm == 0x102 then SRet
    else if imm == 0x002 then URet
    else PrivIllegal
  }

  /** The two classifications differ exactly in swapping MRET and URET. */
  lemma PrivOpSwapped(imm: Word)
    ensures PrivOpOf(imm) == MRet ==> PrivOpAsWritten(imm) == URet
    ensures PrivOpOf(imm) == URet ==> PrivOpAsWritten(imm) == MRet
    ensures PrivOpOf(imm) != MRet && PrivOpOf(imm) != URet ==> PrivOpAsWritten(imm) == PrivOpOf(imm)
  {
  }

  /** The `mret` instruction word 0x3020_0073 takes the source's URET branch, so it only
      restores UIE and neither checks the privilege mode nor leaves machine mode. */
  lemma MretRunsAsUret()
    ensures Opcode(0x3020_0073) == 0x73 && Funct3(0x3020_0073) == 0
    ensures PrivOpAsWritten(ImmI(0x3020_0073)) == URet
    ensures PrivOpOf(ImmI(0x3020_0073)) == MRet
  {
    assert ImmI(0x3020_0073) == 0x302;
  }

  /** The trap cause of ECALL in each privilege mode; the hypervisor mode has none and the
      source throws `IllegalStateException` for it. */
  function EcallCause(priv: nat): Option<TrapType>
  {
    if priv == MACHINE then Some(EnvironmentCallFromMachine)
    else if priv == SUPERVISOR then Some(EnvironmentCallFromSupervisor)
    else if priv == USER then Some(EnvironmentCallFromUser)
    else None
  }

  /** ECALL names the mode it came from, and fails only in the hypervisor mode. */
  lemma EcallCauses(priv: nat)
    requires priv <= MACHINE
    ensures EcallCause(priv).None? <==> priv == HYPERVISOR
    ensures EcallCause(priv) == Some(EnvironmentCallFromUser) ==> priv == USER
    ensures EcallCause(priv) == Some(EnvironmentCallFromSupervisor) ==> priv == SUPERVISOR
    ensures EcallCause(priv) == Some(EnvironmentCallFromMachine) ==> priv == MACHINE
  {
  }

  /** The `mstatus` fields after MRET: MIE takes MPIE, MPIE is set, MPP is cleared. */
  function MretStatus(s: Status): (r: Status)
    requires StatusValid(s)
    ensures StatusValid(r)
  {
    s.(mie := s.mpie, mpie := 1, mpp := 0)
  }

  /** The `mstatus` fields after SRET: SIE takes SPIE, SPIE is set, SPP is cleared. */
  function SretStatus(s: Status): (r: Status)
    requires StatusValid(s)
    ensures StatusValid(r)
  {
    s.(sie := s.spie, spie := 1, spp := 0)
  }

  /** The `mstatus` fields after URET: UIE takes UPIE and UPIE is set. */
  function UretStatus(s: Status): (r: Status)
    requires StatusValid(s)
    ensures StatusValid(r)
  {
    s.(uie := s.upie, upie := 1)
  }

  /** Read through `mstatus`, MRET changes only MIE (bit 3), MPIE (bit 7) and MPP (bits 12:11). */
  lemma MretStatusBits(s: Status)
    requires StatusValid(s)
    ensures Pack(MretStatus(s)) & 0xFFFF_E777 == Pack(s) & 0xFFFF_E777
    ensures (Pack(MretStatus(s)) >> 3) & 1 == (Pack(s) >> 7) & 1
    ensures (Pack(MretStatus(s)) >> 7) & 1 == 1 && (Pack(MretStatus(s)) >> 11) & 3 == 0
  {
  }

  /** Read through `mstatus`, SRET changes only SIE (bit 1), SPIE (bit 5) and SPP (bit 8). */
  lemma SretStatusBits(s: Status)
    requires StatusValid(s)
    ensures Pack(SretStatus(s)) & 0xFFFF_FEDD == Pack(s) & 0xFFFF_FEDD
    ensures (Pack(SretStatus(s)) >> 1) & 1 == (Pack(s) >> 5) & 1
    ensures (Pack(SretStatus(s)) >> 5) & 1 == 1 && (Pack(SretStatus(s)) >> 8) & 1 == 0
  {
  }

  /** Read through `mstatus`, URET changes only UIE (bit 0) and UPIE (bit 4). */
  lemma UretStatusBits(s: Status)
    requires StatusValid(s)
    ensures Pack(UretStatus(s)) & 0xFFFF_FFEE == Pack(s) & 0xFFFF_FFEE
    ensures Pack(UretStatus(s)) & 1 == (Pack(s) >> 4) & 1
    ensures (Pack(UretStatus(s)) >> 4) & 1 == 1
  {
  }

  /** A second MRET returns to user mode with machine interrupts enabled. */
  lemma MretTwice(s: Status)
    requires StatusValid(s)
    ensures MretStatus(MretStatus(s)).mpp == 0 && MretStatus(MretStatus(s)).mie == 1
    ensures MretStatus(MretStatus(s)) == MretStatus(s).(mie := 1)
  {
  }

  /** Only the privilege mode and the `mstatus` fields may differ from before. */
  twostate predicate OnlyModeChanged(h: Hart)
    reads h
  {
    h.pc == old(h.pc) && h.cycle == old(h.cycle) && h.mtimecmp == old(h.mtimecmp) && h.msip == old(h.msip)
    && h.updatePc == old(h.updatePc) && h.satpPpn == old(h.satpPpn) && h.satpMode == old(h.satpMode)
  }

  /** ECALL raises the environment call of the current mode, or fails in the hypervisor
      mode; EBREAK is a breakpoint; MRET and SRET need at least their own mode, and set the
      mode to MPP or SPP and pop the `mstatus` stack; URET has no check and keeps the mode;
      any other `funct12` is illegal. Only `mstatus` and the mode may change, on the
      corrected `funct12` encoding. */
  twostate predicate PrivStep(h: Hart, instr: Word, o: Outcome)
    requires old(h.Valid())
    reads h.x, h.d, h.csr, h`cycle, h`status, h`priv
  {
    h.x[..] == old(h.x[..]) && h.d[..] == old(h.d[..]) && h.csr[..] == old(h.csr[..]) && h.cycle == old(h.cycle)
    && var op := PrivOpOf(ImmI(instr));
    var kept := h.status == old(h.status) && h.priv == old(h.priv);
    (op == ECall ==>
       o == (if EcallCause(old(h.priv)).Some? then Raised(Trap(EcallCause(old(h.priv)).value, old(h.pc), 0)) else Error(InvalidPrivMode))
       && kept)
    && (op == EBreak ==> o == Break && kept)
    && (op == MRet && old(h.priv) < MACHINE ==> o == Raised(IllegalTrap(old(h.pc), instr)) && kept)
    && (op == MRet && old(h.priv) == MACHINE ==>
          o == Continue && h.status == MretStatus(old(h.status)) && h.priv == old(h.status).mpp as nat)
    && (op == SRet && old(h.priv) < SUPERVISOR ==> o == Raised(IllegalTrap(old(h.pc), instr)) && kept)
    && (op == SRet && old(h.priv) >= SUPERVISOR ==>
          o == Continue && h.status == SretStatus(old(h.status)) && h.priv == old(h.status).spp as nat)
    && (op == URet ==> o == Continue && h.status == UretStatus(old(h.status)) && h.priv == old(h.priv))
    && (op == PrivIllegal ==> o == Raised(IllegalTrap(old(h.pc), instr)) && kept)
  }

  /** `system` with `funct3` PRIV. ECALL raises the environment call of the current mode;
      EBREAK is a breakpoint; MRET and SRET need at least their own mode, and set the mode
      to MPP or SPP; URET has no check and keeps the mode. The trap returns do not jump to
      `mepc`/`sepc`. */
  method Priv(h: Hart, instr: Word) returns (o: Outcome)
    requires h.Valid()
    modifies h
    ensures h.Valid() && OnlyModeChanged(h) && PrivStep(h, instr, o)
  {
    var op := PrivOpOf(ImmI(instr));
    match op
    case ECall =>
      var cause := EcallCause(h.priv);
      if cause.None? {
        return Error(InvalidPrivMode);
      }
      return Raised(Trap(cause.value, h.pc, 0));
    case EBreak =>
      return Break;
    case MRet =>
      if h.priv < MACHINE {
        return Raised(IllegalTrap(h.pc, instr));
      }
      var mpp := h.status.mpp;
      h.status := MretStatus(h.status);
      h.priv := mpp as nat;
      return Continue;
    case SRet =>
      if h.priv < SUPERVISOR {
        return Raised(IllegalTrap(h.pc, instr));
      }
      var spp := h.status.spp;
      h.status := SretStatus(h.status);
      h.priv := spp as nat;
      return Continue;
    case URet =>
      h.status := UretStatus(h.status);
      return Continue;
    case PrivIllegal =>
      return Raised(IllegalTrap(h.pc, instr));
  }

  /** `immed_i and 0xFFF`: the I-immediate masked to twelve bits. */
  function CsrField(instr: Word): (r: Word)
    ensures r < 0x1000
  {
    ImmI(instr) & 0xFFF
  }

  /** A twelve-bit field as a CSR number. */
  function ToCsrNum(f: Word): CsrNum
    requires f < 0x1000
  {
    f as nat
  }

  /** The CSR number of a CSR instruction. */
  function CsrNumber(instr: Word): CsrNum
  {
    ToCsrNum(CsrField(instr))
  }

  /** The masked immediate is the instruction's top twelve bits, whatever the sign. */
  lemma CsrFieldBits(instr: Word)
    ensures CsrField(instr) == instr >> 20
  {
    CsrFieldNonNegative(instr);
    CsrFieldNegative(instr);
  }

  lemma CsrFieldNonNegative(instr: Word)
    ensures instr < 0x8000_0000 ==> CsrField(instr) == instr >> 20
  {
  }

  lemma CsrFieldNegative(instr: Word)
    ensures !(instr < 0x8000_0000) ==> CsrField(instr) == instr >> 20
  {
  }

  /** The `funct3` values of the CSR instructions: CSRRW, CSRRS, CSRRC, CSRRWI, CSRRSI, CSRRCI. */
  predicate IsCsrFunct3(f3: Word)
  {
    f3 == 1 || f3 == 2 || f3 == 3 || f3 == 5 || f3 == 6 || f3 == 7
  }

  /** What a CSR instruction asks of `updateCsr`. */
  datatype CsrRequest = CsrRequest(read: bool, write: CsrWrite)

  /** The operand of a CSR instruction: `x[rs1]`, or the five-bit `rs1` field itself for
      the immediate forms. */
  function CsrOperand(instr: Word, x: seq<Word>): Word
    requires |x| == 32
  {
    if Funct3(instr) < 4 then x[Rs1Index(instr)] else Rs1(instr)
  }

  /** The request of each CSR instruction: CSRRW(I) reads only when `rd` is not x0; the set
      and clear forms always read and write nothing when the `rs1` field is 0. */
  function CsrRequestOf(instr: Word, x: seq<Word>): (q: CsrRequest)
    requires |x| == 32 && IsCsrFunct3(Funct3(instr))
    ensures q.write.SetBits? || q.write.KeepBits? ==> q.read
  {
    var f3 := Funct3(instr);
    var v := CsrOperand(instr, x);
    if f3 == 1 || f3 == 5 then CsrRequest(Rd(instr) != 0, Replace(v))
    else if f3 == 2 || f3 == 6 then CsrRequest(true, if Rs1(instr) == 0 then NoWrite else SetBits(v))
    else CsrRequest(true, if Rs1(instr) == 0 then NoWrite else KeepBits(!v))
  }

  /** The set and clear forms with `rs1` field 0 only read, so they succeed on a read-only
      CSR; CSRRW and CSRRWI always write and read only for a destination other than x0. */
  lemma CsrRequestShapes(instr: Word, x: seq<Word>)
    requires |x| == 32 && IsCsrFunct3(Funct3(instr))
    ensures var q := CsrRequestOf(instr, x);
      (Funct3(instr) != 1 && Funct3(instr) != 5 ==> q.read && (q.write.NoWrite? <==> Rs1(instr) == 0))
      && (Funct3(instr) == 1 || Funct3(instr) == 5 ==> q.write.Replace? && (q.read <==> Rd(instr) != 0))
  {
  }

  /** CSRRS: the operand's bits end up set and the others keep their old value. */
  lemma SetBitsEffect(prior: Word, v: Word)
    ensures Written(SetBits(v), Some(prior)) & v == v
    ensures Written(SetBits(v), Some(prior)) & !v == prior & !v
  {
  }

  /** CSRRC: the operand's bits end up clear and the others keep their old value. */
  lemma ClearBitsEffect(prior: Word, v: Word)
    ensures Written(KeepBits(!v), Some(prior)) & v == 0
    ensures Written(KeepBits(!v), Some(prior)) & !v == prior & !v
  {
  }

  /** With a nonzero `rs1` field, CSRRW(I) stores the operand, CSRRS(I) sets its bits and
      CSRRC(I) keeps the bits of its complement. */
  lemma CsrRequestWrites(instr: Word, x: seq<Word>)
    requires |x| == 32 && IsCsrFunct3(Funct3(instr)) && Rs1(instr) != 0
    ensures var w := CsrRequestOf(instr, x).write;
      (Funct3(instr) == 1 || Funct3(instr) == 5 ==> w == Replace(CsrOperand(instr, x)))
      && (Funct3(instr) == 2 || Funct3(instr) == 6 ==> w == SetBits(CsrOperand(instr, x)))
      && (Funct3(instr) == 3 || Funct3(instr) == 7 ==> w == KeepBits(!CsrOperand(instr, x)))
  {
  }

  /** A CSR instruction with `rs1` field 0 in the set or clear forms reads a CSR of its
      level or below and changes nothing, even on a read-only CSR. */
  lemma CsrReadOnlyAccess(c: CsrFile, priv: nat, hartId: Word, instr: Word, x: seq<Word>, time: Dword)
    requires |c.raw| == CSR_COUNT && |x| == 32
    requires (Funct3(instr) == 2 || Funct3(instr) == 3 || Funct3(instr) == 6 || Funct3(instr) == 7) && Rs1(instr) == 0
    requires priv >= Level(CsrNumber(instr))
    ensures var q := CsrRequestOf(instr, x);
      UpdateCsr(c, priv, hartId, CsrNumber(instr), q.read, q.write, time)
        == (c, Done(Some(ReadCsrRaw(c, hartId, CsrNumber(instr), time))))
  {
    var q := CsrRequestOf(instr, x);
    assert q.read && q.write.NoWrite?;
  }

  /** `updateCsr` with a request, then the old value to `rd` when it was read. The
      permission errors `updateCsr` throws end the instruction with no register written. */
  method ApplyCsrRequest(h: Hart, csrNum: CsrNum, q: CsrRequest, rd: nat, time: Dword) returns (o: Outcome)
    requires h.Valid() && rd < 32 && (q.write.SetBits? || q.write.KeepBits? ==> q.read)
    modifies h, h.x, h.csr
    ensures h.Valid() && h.OnlyCsrsChanged() && h.d[..] == old(h.d[..])
    ensures var u := UpdateCsr(old(h.Csrs()), h.priv, h.hartId, csrNum, q.read, q.write, time);
      h.Csrs() == u.0
      && (u.1.Denied? ==> o == Error(u.1.failure) && h.x[..] == old(h.x[..]))
      && (u.1.Done? && u.1.prior.None? ==> o == Continue && h.x[..] == old(h.x[..]))
      && (u.1.Done? && u.1.prior.Some? ==> o == Continue && h.x[..] == SetReg(old(h.x[..]), rd, u.1.prior.value))
  {
    var r := h.UpdateCsrOn(csrNum, q.read, q.write, time);
    if r.Denied? {
      return Error(r.failure);
    }
    if r.prior.Some? {
      h.SetX(rd, r.prior.value);
    }
    return Continue;
  }

  /** The CSR instructions: `updateCsr` with the instruction's request on the CSR it
      names, then the old value to `rd` when it was read; a refused request is a failure
      and writes no register, and `funct3` 4 is illegal. Nothing outside the CSR state and
      the integer registers changes. */
  twostate predicate CsrStep(h: Hart, instr: Word, time: Dword, o: Outcome)
    requires old(h.Valid())
    reads h.x, h.d, h.csr, h`cycle, h`status, h`priv
  {
    h.d[..] == old(h.d[..]) && h.priv == old(h.priv)
    && (!IsCsrFunct3(Funct3(instr)) ==>
          o == Raised(IllegalTrap(old(h.pc), instr)) && h.x[..] == old(h.x[..]) && h.Csrs() == old(h.Csrs()))
    && (IsCsrFunct3(Funct3(instr)) ==>
          var q := CsrRequestOf(instr, old(h.x[..]));
          var u := UpdateCsr(old(h.Csrs()), old(h.priv), h.hartId, CsrNumber(instr), q.read, q.write, time);
          h.Csrs() == u.0
          && (u.1.Denied? ==> o == Error(u.1.failure) && h.x[..] == old(h.x[..]))
          && (u.1.Done? && u.1.prior.None? ==> o == Continue && h.x[..] == old(h.x[..]))
          && (u.1.Done? && u.1.prior.Some? ==>
                o == Continue && h.x[..] == SetReg(old(h.x[..]), RdIndex(instr), u.1.prior.value)))
  }

  /** The CSR instructions: the request of the instruction on the CSR it names; `funct3` 4
      is illegal. */
  method CsrInstr(h: Hart, instr: Word, time: Dword) returns (o: Outcome)
    requires h.Valid()
    modifies h, h.x, h.csr
    ensures h.Valid() && h.OnlyCsrsChanged() && CsrStep(h, instr, time, o)
  {
    if !IsCsrFunct3(Funct3(instr)) {
      return Raised(IllegalTrap(h.pc, instr));
    }
    var q := CsrRequestOf(instr, h.x[..]);
    o := ApplyCsrRequest(h, CsrNumber(instr), q, RdIndex(instr), time);
  }
}
