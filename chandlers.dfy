/** The handlers of `exec_compressed`, one per compressed instruction or group of
    instructions sharing a layout. Register fields are the full five-bit `c_rs1`/`c_rs2`
    or the three-bit `c_rs1'`/`c_rs2'`, which name x8..x15. A handler that redirects
    control sets the pc and clears `updatePc`; the two-byte step otherwise is taken by `Exec`. */
module CompressedOps {
  import opened Words
  import opened Traps
  import opened Instruction
  import opened Alu
  import opened Harts
  import opened States
  import opened Physical
  import opened Mmus
  import opened Compressed
  import opened Handlers

  // Memory accesses shared by the quadrant 0 and quadrant 2 loads and stores.

  /** C.LW and C.LWSP: the word read at `addr` through the MMU goes to `x[rd]`; a page
      fault raises and writes nothing. Memory, the FP registers and the CSR state never
      change. */
  twostate predicate LoadWordStep(h: Hart, mmu: Mmu, addr: Word, rd: nat, o: Outcome)
    requires old(h.Valid()) && old(mmu.Valid()) && rd < 32
    reads h.x, h.d, h.csr, h`cycle, h`status, h`priv, mmu
  {
    h.d[..] == old(h.d[..]) && SystemKept(h) && mmu.mem == old(mmu.mem)
    && var t := old(mmu.Translation(h, addr, READ));
    (t.Err? ==> o == Raised(t.trap) && h.x[..] == old(h.x[..]) && mmu.reservation == old(mmu.reservation))
    && (t.Ok? ==>
          o == Continue && mmu.reservation == AfterAccess(old(mmu.reservation), addr)
          && h.x[..] == SetReg(old(h.x[..]), rd, Load32(mmu.mem, t.value)))
  }

  /** C.LW and C.LWSP: read the word at `addr` into `x[rd]`. */
  method LoadWord(h: Hart, mmu: Mmu, addr: Word, rd: nat) returns (o: Outcome)
    requires h.Valid() && mmu.Valid() && rd < 32
    modifies h.x, mmu, mmu.vmm.cache
    ensures h.Valid() && mmu.Valid() && LoadWordStep(h, mmu, addr, rd, o)
  {
    var r := mmu.Read32(h, addr);
    if r.Err? {
      return Raised(r.trap);
    }
    h.SetX(rd, r.value);
    return Continue;
  }

  /** C.FLD and C.FLDSP: the double word read at `addr` through the MMU goes to `d[rd]`
      unboxed; a page fault raises and writes nothing. Memory, the integer registers and
      the CSR state never change. */
  twostate predicate LoadDoubleStep(h: Hart, mmu: Mmu, addr: Word, rd: nat, o: Outcome)
    requires old(h.Valid()) && old(mmu.Valid()) && rd < 32
    reads h.x, h.d, h.csr, h`cycle, h`status, h`priv, mmu
  {
    h.x[..] == old(h.x[..]) && SystemKept(h) && mmu.mem == old(mmu.mem)
    && var t := old(mmu.Translation(h, addr, READ));
    (t.Err? ==> o == Raised(t.trap) && h.d[..] == old(h.d[..]) && mmu.reservation == old(mmu.reservation))
    && (t.Ok? ==>
          o == Continue && mmu.reservation == AfterAccess(old(mmu.reservation), addr)
          && h.d[..] == old(h.d[..])[rd := Load64(mmu.mem, t.value)])
  }

  /** C.FLD and C.FLDSP: read the double word at `addr` into `d[rd]`. */
  method LoadDouble(h: Hart, mmu: Mmu, addr: Word, rd: nat) returns (o: Outcome)
    requires h.Valid() && mmu.Valid() && rd < 32
    modifies h.d, mmu, mmu.vmm.cache
    ensures h.Valid() && mmu.Valid() && LoadDoubleStep(h, mmu, addr, rd, o)
  {
    var r := mmu.Read64(h, addr);
    if r.Err? {
      return Raised(r.trap);
    }
    h.SetD(rd, r.value);
    return Continue;
  }

  /** C.SW and C.SWSP: the word `v` is written at `addr` through the MMU; a page fault
      raises and writes nothing. No register changes. */
  twostate predicate StoreWordStep(h: Hart, mmu: Mmu, addr: Word, v: Word, o: Outcome)
    requires old(mmu.Valid())
    reads h.x, h.d, h.csr, h`cycle, h`status, h`priv, mmu
  {
    h.x[..] == old(h.x[..]) && h.d[..] == old(h.d[..]) && SystemKept(h)
    && var t := old(mmu.Translation(h, addr, WRITE));
    (t.Err? ==> o == Raised(t.trap) && MemoryKept(mmu))
    && (t.Ok? ==>
          o == Continue && mmu.reservation == AfterAccess(old(mmu.reservation), addr)
          && mmu.mem == Store32(old(mmu.mem), t.value, v))
  }

  /** C.SW and C.SWSP: write `v` at `addr`. */
  method StoreWord(h: Hart, mmu: Mmu, addr: Word, v: Word) returns (o: Outcome)
    requires mmu.Valid()
    modifies mmu, mmu.vmm.cache
    ensures mmu.Valid() && StoreWordStep(h, mmu, addr, v, o)
  {
    var fault := mmu.Write32(h, addr, v);
    assert h.x[..] == old(h.x[..]) && h.d[..] == old(h.d[..]) && SystemKept(h);
    if fault.Some? {
      return Raised(fault.value);
    }
    return Continue;
  }

  /** C.FSD and C.FSDSP: all 64 bits of `v` are written at `addr` through the MMU; a page
      fault raises and writes nothing. No register changes. */
  twostate predicate StoreDoubleStep(h: Hart, mmu: Mmu, addr: Word, v: Dword, o: Outcome)
    requires old(mmu.Valid())
    reads h.x, h.d, h.csr, h`cycle, h`status, h`priv, mmu
  {
    h.x[..] == old(h.x[..]) && h.d[..] == old(h.d[..]) && SystemKept(h)
    && var t := old(mmu.Translation(h, addr, WRITE));
    (t.Err? ==> o == Raised(t.trap) && MemoryKept(mmu))
    && (t.Ok? ==>
          o == Continue && mmu.reservation == AfterAccess(old(mmu.reservation), addr)
          && mmu.mem == Store64(old(mmu.mem), t.value, v))
  }

  /** C.FSD and C.FSDSP: write `v` at `addr`. */
  method StoreDouble(h: Hart, mmu: Mmu, addr: Word, v: Dword) returns (o: Outcome)
    requires mmu.Valid()
    modifies mmu, mmu.vmm.cache
    ensures mmu.Valid() && StoreDoubleStep(h, mmu, addr, v, o)
  {
    var fault := mmu.Write64(h, addr, v);
    assert h.x[..] == old(h.x[..]) && h.d[..] == old(h.d[..]) && SystemKept(h);
    if fault.Some? {
      return Raised(fault.value);
    }
    return Continue;
  }

  // Quadrant 0.

  /** C.ADDI4SPN: `x[rs2'] = x2 + imm`, an ADDI; a zero immediate is illegal. */
  method CAddi4spn(h: Hart, instr: Word) returns (o: Outcome)
    requires h.Valid()
    modifies h.x
    ensures h.Valid()
    ensures Addi4spnImm(instr) == 0 ==> o == Raised(IllegalTrap(h.pc, instr)) && h.x[..] == old(h.x[..])
    ensures Addi4spnImm(instr) != 0 ==>
      o == Continue && h.x[..] == SetReg(old(h.x[..]), CRs2PrimeIndex(instr), BaseOpValue(0, 0, old(h.x[2]), Addi4spnImm(instr)))
  {
    var imm := Addi4spnImm(instr);
    if imm == 0 {
      return Raised(IllegalTrap(h.pc, instr));
    }
    h.SetX(CRs2PrimeIndex(instr), BaseOpValue(0, 0, h.x[2], imm));
    return Continue;
  }

  // Quadrant 1.

  /** C.ADDI (C.NOP when `rd` is x0): `x[rd] += imm`, an ADDI. */
  method CAddi(h: Hart, instr: Word) returns (o: Outcome)
    requires h.Valid()
    modifies h.x
    ensures h.Valid() && o == Continue
    ensures h.x[..] == SetReg(old(h.x[..]), CRs1Index(instr), BaseOpValue(0, 0, old(h.x[CRs1Index(instr)]), Imm6(instr)))
  {
    var rd := CRs1Index(instr);
    h.SetX(rd, BaseOpValue(0, 0, h.x[rd], Imm6(instr)));
    return Continue;
  }

  /** C.LI: `x[rd] = imm`. */
  method CLi(h: Hart, instr: Word) returns (o: Outcome)
    requires h.Valid()
    modifies h.x
    ensures h.Valid() && o == Continue
    ensures h.x[..] == SetReg(old(h.x[..]), CRs1Index(instr), Imm6(instr))
  {
    h.SetX(CRs1Index(instr), Imm6(instr));
    return Continue;
  }

  /** Where C.JAL and C.J send the pc: the jump offset added to the pc of the instruction. */
  function JumpTarget(instr: Word, pc: Word): Word
  {
    Relative(pc, JumpOffset(instr))
  }

  /** C.JAL: jump by the offset and link the address two bytes on in x1. */
  method CJal(h: Hart, instr: Word) returns (o: Outcome)
    requires h.Valid()
    modifies h, h.x
    ensures h.Valid() && h.OnlyPcChanged() && o == Continue
    ensures h.pc == JumpTarget(instr, old(h.pc)) && !h.updatePc
    ensures h.x[..] == SetReg(old(h.x[..]), 1, Link(old(h.pc), 2))
  {
    var oldPc := h.pc;
    h.pc := JumpTarget(instr, oldPc);
    h.updatePc := false;
    h.SetX(1, Link(oldPc, 2));
    return Continue;
  }

  /** C.ADDI16SP (`rd` x2): `x2 += imm`, an ADDI; a zero immediate is illegal. */
  method CAddi16sp(h: Hart, instr: Word) returns (o: Outcome)
    requires h.Valid()
    modifies h.x
    ensures h.Valid()
    ensures Addi16spImm(instr) == 0 ==> o == Raised(IllegalTrap(h.pc, instr)) && h.x[..] == old(h.x[..])
    ensures Addi16spImm(instr) != 0 ==>
      o == Continue && h.x[..] == SetReg(old(h.x[..]), 2, BaseOpValue(0, 0, old(h.x[2]), Addi16spImm(instr)))
  {
    var imm := Addi16spImm(instr);
    if imm == 0 {
      return Raised(IllegalTrap(h.pc, instr));
    }
    h.SetX(2, BaseOpValue(0, 0, h.x[2], imm));
    return Continue;
  }

  /** C.LUI (`rd` other than x2): `x[rd] = imm`; a zero immediate is illegal. */
  method CLui(h: Hart, instr: Word) returns (o: Outcome)
    requires h.Valid()
    modifies h.x
    ensures h.Valid()
    ensures LuiImm(instr) == 0 ==> o == Raised(IllegalTrap(h.pc, instr)) && h.x[..] == old(h.x[..])
    ensures LuiImm(instr) != 0 ==> o == Continue && h.x[..] == SetReg(old(h.x[..]), CRs1Index(instr), LuiImm(instr))
  {
    var imm := LuiImm(instr);
    if imm == 0 {
      return Raised(IllegalTrap(h.pc, instr));
    }
    h.SetX(CRs1Index(instr), imm);
    return Continue;
  }

  /** The arithmetic of quadrant 1, `funct3` 100, on `a = x[rs1']` and `b = x[rs2']`:
      C.SRLI, C.SRAI, C.ANDI by bits 11:10, then C.SUB, C.XOR, C.OR, C.AND by bits 6:5
      when bit 12 is clear; bit 12 set there is illegal (`None`). */
  function CAluValue(instr: Word, a: Word, b: Word): Option<Word>
  {
    var f2 := Bits(instr, 10, 11);
    if f2 == 0 then Some(Ushr(a, ShiftAmount(instr)))
    else if f2 == 1 then Some(Shr(a, ShiftAmount(instr)))
    else if f2 == 2 then Some(a & Imm6(instr))
    else if Bit(instr, 12) != 0 then None
    else if CFunct2(instr) == 0 then Some(a - b)
    else if CFunct2(instr) == 1 then Some(a ^ b)
    else if CFunct2(instr) == 2 then Some(a | b)
    else Some(a & b)
  }

  /** Each compressed arithmetic instruction computes what its 32-bit expansion computes:
      SRLI, SRAI, ANDI on the immediate, and SUB, XOR, OR, AND on `rs2'`. */
  lemma CAluExpands(instr: Word, a: Word, b: Word)
    ensures var f2 := Bits(instr, 10, 11);
      (f2 == 0 ==> CAluValue(instr, a, b) == Some(BaseOpValue(5, 0, a, ShiftAmount(instr))))
      && (f2 == 1 ==> CAluValue(instr, a, b) == Some(BaseOpValue(5, 1, a, ShiftAmount(instr))))
      && (f2 == 2 ==> CAluValue(instr, a, b) == Some(BaseOpValue(7, 0, a, Imm6(instr))))
      && (f2 == 3 && Bit(instr, 12) == 0 ==>
            CAluValue(instr, a, b) == Some(BaseOpValue([0, 4, 6, 7][CFunct2(instr)], if CFunct2(instr) == 0 then 1 else 0, a, b)))
      && (f2 == 3 && Bit(instr, 12) != 0 ==> CAluValue(instr, a, b) == None)
  {
    assert ShiftAmount(instr) & 31 == ShiftAmount(instr);
  }

  /** Quadrant 1, `funct3` 100: the result of `CAluValue` goes to `x[rs1']`. */
  method CAlu(h: Hart, instr: Word) returns (o: Outcome)
    requires h.Valid()
    modifies h.x
    ensures h.Valid()
    ensures var v := CAluValue(instr, old(h.x[CRs1PrimeIndex(instr)]), old(h.x[CRs2PrimeIndex(instr)]));
      (v.None? ==> o == Raised(IllegalTrap(h.pc, instr)) && h.x[..] == old(h.x[..]))
      && (v.Some? ==> o == Continue && h.x[..] == SetReg(old(h.x[..]), CRs1PrimeIndex(instr), v.value))
  {
    var v := CAluValue(instr, h.x[CRs1PrimeIndex(instr)], h.x[CRs2PrimeIndex(instr)]);
    if v.None? {
      return Raised(IllegalTrap(h.pc, instr));
    }
    h.SetX(CRs1PrimeIndex(instr), v.value);
    return Continue;
  }

  /** C.J: jump by the offset. */
  method CJ(h: Hart, instr: Word) returns (o: Outcome)
    requires h.Valid()
    modifies h
    ensures h.Valid() && h.OnlyPcChanged() && o == Continue
    ensures h.pc == JumpTarget(instr, old(h.pc)) && !h.updatePc
  {
    h.pc := JumpTarget(instr, h.pc);
    h.updatePc := false;
    return Continue;
  }

  /** Whether C.BEQZ (`zero`) or C.BNEZ (not `zero`) is taken on `x[rs1']`. */
  function CBranchTaken(zero: bool, src: Word): bool
  {
    if zero then src == 0 else src != 0
  }

  /** Where C.BEQZ (`zero`) or C.BNEZ sends the pc when `x[rs1']` holds `src`. */
  function BranchTarget(zero: bool, instr: Word, pc: Word, src: Word): (t: Option<Word>)
    ensures t.Some? <==> CBranchTaken(zero, src)
  {
    if CBranchTaken(zero, src) then Some(Relative(pc, BranchOffset(instr))) else None
  }

  /** C.BEQZ and C.BNEZ: a taken branch moves the pc by the offset; no register changes. */
  method CBranch(h: Hart, instr: Word, zero: bool) returns (o: Outcome)
    requires h.Valid()
    modifies h
    ensures h.Valid() && h.OnlyPcChanged() && o == Continue
    ensures var t := BranchTarget(zero, instr, old(h.pc), h.x[CRs1PrimeIndex(instr)]);
      (t.Some? ==> h.pc == t.value && !h.updatePc) && (t.None? ==> h.pc == old(h.pc) && h.updatePc == old(h.updatePc))
  {
    if CBranchTaken(zero, h.x[CRs1PrimeIndex(instr)]) {
      h.pc := Relative(h.pc, BranchOffset(instr));
      h.updatePc := false;
    }
    return Continue;
  }

  // Quadrant 2.

  /** The register C.SLLI shifts as written: `c_rs1'`, the three-bit field of the CB
      format, although C.SLLI has the CI format with a five-bit `rd`. */
  function SlliTargetAsWritten(instr: Word): (r: nat)
    ensures r < 32
  {
    CRs1PrimeIndex(instr)
  }

  /** The register C.SLLI shifts by the ISA: the five-bit `rd` field, `c_rs1`. */
  function SlliTarget(instr: Word): (r: nat)
    ensures r < 32
  {
    CRs1Index(instr)
  }

  /** The register file after C.SLLI as written. */
  function SlliAsWritten(instr: Word, x: seq<Word>): seq<Word>
    requires |x| == 32
  {
    SetReg(x, SlliTargetAsWritten(instr), Shl(x[SlliTargetAsWritten(instr)], ShiftAmount(instr)))
  }

  /** The two register choices agree exactly for x8..x15. */
  lemma SlliTargetsAgree(instr: Word)
    ensures SlliTargetAsWritten(instr) == SlliTarget(instr) <==> 8 <= SlliTarget(instr) < 16
  {
    assert CRs1(instr) == (instr >> 7) & 0x1F;
  }

  /** `c.slli x1, 1` (0x0086) as written doubles x9 and leaves x1 alone. */
  lemma SlliAsWrittenShiftsWrongRegister(x: seq<Word>)
    requires |x| == 32 && x[0] == 0
    ensures COpcode(0x0086) == 2 && CFunct3(0x0086) == 0 && ShiftAmount(0x0086) == 1 && CRs1(0x0086) == 1
    ensures SlliAsWritten(0x0086, x)[1] == x[1]
    ensures SlliAsWritten(0x0086, x)[9] == Shl(x[9], 1)
  {
    assert CRs1Prime(0x0086) == 9;
  }

  /** C.SLLI, with the register of the ISA: `x[rd] = x[rd] shl shamt`. */
  method CSlli(h: Hart, instr: Word) returns (o: Outcome)
    requires h.Valid()
    modifies h.x
    ensures h.Valid() && o == Continue
    ensures h.x[..] == SetReg(old(h.x[..]), SlliTarget(instr), Shl(old(h.x[SlliTarget(instr)]), ShiftAmount(instr)))
  {
    var rd := SlliTarget(instr);
    h.SetX(rd, Shl(h.x[rd], ShiftAmount(instr)));
    return Continue;
  }

  /** C.JR: jump to `x[rs1]`; bit 0 of the target is kept. */
  method CJr(h: Hart, instr: Word) returns (o: Outcome)
    requires h.Valid()
    modifies h
    ensures h.Valid() && h.OnlyPcChanged() && o == Continue
    ensures h.pc == h.x[CRs1Index(instr)] && !h.updatePc
  {
    h.pc := h.x[CRs1Index(instr)];
    h.updatePc := false;
    return Continue;
  }

  /** C.MV: `x[rd] = x[rs2]`. */
  method CMv(h: Hart, instr: Word) returns (o: Outcome)
    requires h.Valid()
    modifies h.x
    ensures h.Valid() && o == Continue
    ensures h.x[..] == SetReg(old(h.x[..]), CRs1Index(instr), old(h.x[CRs2Index(instr)]))
  {
    h.SetX(CRs1Index(instr), h.x[CRs2Index(instr)]);
    return Continue;
  }

  /** C.JALR: jump to `x[rs1]` (bit 0 kept) and link the address two bytes on in x1. */
  method CJalr(h: Hart, instr: Word) returns (o: Outcome)
    requires h.Valid()
    modifies h, h.x
    ensures h.Valid() && h.OnlyPcChanged() && o == Continue
    ensures h.pc == old(h.x[CRs1Index(instr)]) && !h.updatePc
    ensures h.x[..] == SetReg(old(h.x[..]), 1, Link(old(h.pc), 2))
  {
    var oldPc := h.pc;
    h.pc := h.x[CRs1Index(instr)];
    h.updatePc := false;
    h.SetX(1, Link(oldPc, 2));
    return Continue;
  }

  /** C.ADD: `x[rd] += x[rs2]`, the ADD of the base ISA. */
  method CAdd(h: Hart, instr: Word) returns (o: Outcome)
    requires h.Valid()
    modifies h.x
    ensures h.Valid() && o == Continue
    ensures h.x[..] == SetReg(old(h.x[..]), CRs1Index(instr), BaseOpValue(0, 0, old(h.x[CRs1Index(instr)]), old(h.x[CRs2Index(instr)])))
  {
    var a := h.x[CRs1Index(instr)];
    var b := h.x[CRs2Index(instr)];
    h.SetX(CRs1Index(instr), BaseOpValue(0, 0, a, b));
    return Continue;
  }

  /** The compressed instructions `exec_compressed` tells apart. `CNopK` stands for the
      quadrant 2, `funct3` 100 encodings with `rs1` x0 other than C.EBREAK, which do nothing. */
  datatype CKind =
    | CAddi4spnK | CFldK | CLwK | CFsdK | CSwK
    | CAddiK | CJalK | CLiK | CAddi16spK | CLuiK | CAluK | CJK | CBeqzK | CBnezK
    | CSlliK | CFldspK | CLwspK | CJrK | CMvK | CEbreakK | CJalrK | CAddK | CNopK | CFsdspK | CSwspK
    | CIllegalK

  /** The nested selection of `exec_compressed`: the quadrant (bits 1:0), then `funct3`
      (bits 15:13), then the register fields and bit 12 where encodings share a `funct3`.
      A word whose low bits are 11 is not compressed. */
  function CDecode(instr: Word): CKind
  {
    var q := COpcode(instr);
    var f3 := CFunct3(instr);
    if q == 0 then
      (if f3 == 0 then CAddi4spnK else if f3 == 1 then CFldK else if f3 == 2 then CLwK
       else if f3 == 5 then CFsdK else if f3 == 6 then CSwK else CIllegalK)
    else if q == 1 then
      (if f3 == 0 then CAddiK else if f3 == 1 then CJalK else if f3 == 2 then CLiK
       else if f3 == 3 then (if CRs1(instr) == 2 then CAddi16spK else CLuiK)
       else if f3 == 4 then CAluK else if f3 == 5 then CJK else if f3 == 6 then CBeqzK else CBnezK)
    else if q == 2 then
      (if f3 == 0 then CSlliK else if f3 == 1 then CFldspK
       else if f3 == 2 then (if CRs1(instr) == 0 then CIllegalK else CLwspK)
       else if f3 == 4 then
         (if Bit(instr, 12) == 0 then
            (if CRs1(instr) != 0 && CRs2(instr) == 0 then CJrK
             else if CRs1(instr) != 0 then CMvK
             else CNopK)
          else
            (if CRs1(instr) == 0 && CRs2(instr) == 0 then CEbreakK
             else if CRs1(instr) != 0 && CRs2(instr) == 0 then CJalrK
             else if CRs1(instr) != 0 then CAddK
             else CNopK))
       else if f3 == 5 then CFsdspK else if f3 == 6 then CSwspK else CIllegalK)
    else CIllegalK
  }

  /** The quadrant 2 groups that share `funct3` 100 split on the two register fields and
      bit 12 exactly as the ISA's C.JR, C.MV, C.EBREAK, C.JALR and C.ADD do. */
  lemma CDecodeQuadrant2Group(instr: Word)
    requires COpcode(instr) == 2 && CFunct3(instr) == 4
    ensures CDecode(instr) == CJrK <==> Bit(instr, 12) == 0 && CRs1(instr) != 0 && CRs2(instr) == 0
    ensures CDecode(instr) == CMvK <==> Bit(instr, 12) == 0 && CRs1(instr) != 0 && CRs2(instr) != 0
    ensures CDecode(instr) == CEbreakK <==> Bit(instr, 12) == 1 && CRs1(instr) == 0 && CRs2(instr) == 0
    ensures CDecode(instr) == CJalrK <==> Bit(instr, 12) == 1 && CRs1(instr) != 0 && CRs2(instr) == 0
    ensures CDecode(instr) == CAddK <==> Bit(instr, 12) == 1 && CRs1(instr) != 0 && CRs2(instr) != 0
    ensures CDecode(instr) == CNopK <==> CRs1(instr) == 0 && (Bit(instr, 12) == 0 || CRs2(instr) != 0)
  {
  }

  /** A compressed jump built by the CJ-format encoder decodes as C.JAL or C.J by its
      `funct3`. */
  lemma CDecodeJump(f3: Word, offset: Word)
    requires f3 == 1 || f3 == 5
    requires offset & 1 == 0 && (offset < 0x800 || offset >= 0xFFFF_F800)
    ensures CDecode(EncodeCJ(f3, offset)) == if f3 == 1 then CJalK else CJK
  {
    DecodeEncodeCJ(f3, offset);
    CDecodeQuadrant1Jump(EncodeCJ(f3, offset));
  }

  /** Quadrant 1 with `funct3` 001 is C.JAL and with 101 C.J. */
  lemma CDecodeQuadrant1Jump(w: Word)
    requires COpcode(w) == 1 && (CFunct3(w) == 1 || CFunct3(w) == 5)
    ensures CDecode(w) == if CFunct3(w) == 1 then CJalK else CJK
  {
  }

  /** Where a compressed instruction of kind `k` sends the pc: C.JAL, C.J, C.JR, C.JALR and
      a taken C.BEQZ or C.BNEZ; `None` when control falls through. */
  function KindTarget(k: CKind, instr: Word, pc: Word, x: seq<Word>): (t: Option<Word>)
    requires |x| == 32
    ensures !IsControlKind(k) ==> t.None?
    ensures k.CJalK? || k.CJK? || k.CJrK? || k.CJalrK? ==> t.Some?
  {
    if k.CJalK? || k.CJK? then Some(JumpTarget(instr, pc))
    else if k.CBeqzK? || k.CBnezK? then BranchTarget(k.CBeqzK?, instr, pc, x[CRs1PrimeIndex(instr)])
    else if k.CJrK? || k.CJalrK? then Some(x[CRs1Index(instr)])
    else None
  }

  /** The compressed kinds that redirect control. */
  predicate IsControlKind(k: CKind)
  {
    k.CJalK? || k.CJK? || k.CBeqzK? || k.CBnezK? || k.CJrK? || k.CJalrK?
  }
}
