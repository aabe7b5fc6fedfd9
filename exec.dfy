/** `exec` and `exec_compressed`: the dispatch of one instruction to its handler, and the
    pc rule around it. After a handler completes, the pc moves past the instruction (4 bytes,
    or 2 for a compressed one) unless the handler redirected it and cleared `updatePc`, in
    which case the flag is set again. A breakpoint has already stepped the pc, and a trap
    leaves it at the faulting instruction. */
module Execute {
  import opened Words
  import opened Traps
  import opened Instruction
  import opened Alu
  import opened Harts
  import opened Physical
  import opened Mmus
  import opened Compressed
  import opened Fp
  import opened Handlers
  import opened MemoryOps
  import opened SystemOps
  import opened CompressedOps
  import opened Semantics
  import opened States

  // The major opcodes `exec` dispatches on. OP_FP is the source's constant, which is the
  // major opcode the ISA gives to FMADD; OP-FP proper (0b1010011) is an illegal instruction.
  const OP_IMM: Word := 0x13
  const LUI: Word := 0x37
  const AUIPC: Word := 0x17
  const OP: Word := 0x33
  const JAL: Word := 0x6F
  const JALR: Word := 0x67
  const BRANCH: Word := 0x63
  const LOAD: Word := 0x03
  const STORE: Word := 0x23
  const MISC_MEM: Word := 0x0F
  const SYSTEM: Word := 0x73
  const LOAD_FP: Word := 0x07
  const STORE_FP: Word := 0x27
  const OP_FP: Word := 0x43
  const AMO: Word := 0x2F

  /** The major opcodes with a handler. */
  predicate KnownOpcode(op: Word)
  {
    op == 0x13 || op == 0x37 || op == 0x17 || op == 0x33 || op == 0x6F || op == 0x67 || op == 0x63
    || op == 0x03 || op == 0x23 || op == 0x0F || op == 0x73 || op == 0x07 || op == 0x27 || op == 0x43 || op == 0x2F
  }

  /** The length of an instruction: two bytes unless the low two bits are both set. */
  function Length(instr: Word): (n: Word)
    ensures n == 2 || n == 4
    ensures n == 4 <==> instr & 3 == 3
  {
    if COpcode(instr) != 3 then 2 else 4
  }

  /** The address of the instruction after `instr` at `pc`. */
  function Advance(pc: Word, instr: Word): Word
  {
    pc + Length(instr)
  }

  /** Where a 32-bit jump or taken branch sends the pc, reading the registers before the
      instruction; `None` when control falls through. */
  function BaseTarget(instr: Word, pc: Word, x: seq<Word>): Option<Word>
    requires |x| == 32
  {
    var op := Opcode(instr);
    if op == 0x6F then Some(Relative(pc, ImmJ(instr)))
    else if op == 0x67 then Some(JalrTarget(instr, x[Rs1Index(instr)]))
    else if op == 0x63 then BranchTarget32(instr, pc, x)
    else None
  }

  /** Where a 32-bit branch sends the pc when it is taken. */
  function BranchTarget32(instr: Word, pc: Word, x: seq<Word>): Option<Word>
    requires |x| == 32
  {
    if BranchTaken(Funct3(instr), x[Rs1Index(instr)], x[Rs2Index(instr)]) == Some(true) then
      Some(Relative(pc, ImmB(instr)))
    else None
  }

  /** Where a compressed jump or taken branch sends the pc. */
  function CompressedTarget(instr: Word, pc: Word, x: seq<Word>): Option<Word>
    requires |x| == 32
  {
    KindTarget(CDecode(instr), instr, pc, x)
  }

  /** The pc after an instruction that completes, given the registers and the `updatePc`
      flag before it: the target of a jump or taken branch, otherwise the next instruction,
      or the same pc when the flag was already clear. */
  function NextPc(instr: Word, pc: Word, x: seq<Word>, updatePc: bool): Word
    requires |x| == 32
  {
    var t := if COpcode(instr) != 3 then CompressedTarget(instr, pc, x) else BaseTarget(instr, pc, x);
    if t.Some? then t.value
    else if updatePc then Advance(pc, instr)
    else pc
  }

  /** C.EBREAK: quadrant 2, `funct3` 100, bit 12 set and both register fields x0. */
  predicate IsCEbreak(instr: Word)
  {
    COpcode(instr) == 2 && CFunct3(instr) == 4 && Bit(instr, 12) == 1 && CRs1(instr) == 0 && CRs2(instr) == 0
  }

  /** The compressed decoder selects C.EBREAK for exactly that encoding. */
  lemma CEbreakDecoded(instr: Word)
    ensures CDecode(instr) == CEbreakK <==> IsCEbreak(instr)
  {
    if COpcode(instr) == 2 && CFunct3(instr) == 4 {
      CDecodeQuadrant2Group(instr);
    }
  }

  /** The instructions that stop the interpreter: EBREAK, C.EBREAK, and the hint
      `slt x0, x1, _` of `op`. */
  predicate IsBreakpoint(instr: Word)
  {
    if COpcode(instr) != 3 then IsCEbreak(instr)
    else
      (Opcode(instr) == 0x33 && IsBreakHint(instr))
      || (Opcode(instr) == 0x73 && Funct3(instr) == 0 && PrivOpOf(ImmI(instr)) == EBreak)
  }

  /** The compressed jumps, which always redirect the pc. */
  method CompressedJump(h: Hart, instr: Word, k: CKind) returns (o: Outcome)
    requires h.Valid() && (k.CJalK? || k.CJK? || k.CJrK? || k.CJalrK?)
    modifies h, h.x
    ensures h.Valid() && h.OnlyPcChanged() && o == Continue
    ensures h.pc == KindTarget(k, instr, old(h.pc), old(h.x[..])).value && !h.updatePc
    ensures h.x[..] == CJumpRegs(k, old(h.pc), old(h.x[..])) && h.d[..] == old(h.d[..]) && SystemKept(h)
  {
    ghost var pc0, x0 := h.pc, h.x[..];
    if k.CJalK? {
      assert KindTarget(k, instr, pc0, x0) == Some(JumpTarget(instr, pc0));
      o := CJal(h, instr);
    } else if k.CJK? {
      assert KindTarget(k, instr, pc0, x0) == Some(JumpTarget(instr, pc0));
      o := CJ(h, instr);
    } else if k.CJrK? {
      assert KindTarget(k, instr, pc0, x0) == Some(x0[CRs1Index(instr)]);
      o := CJr(h, instr);
    } else {
      assert KindTarget(k, instr, pc0, x0) == Some(x0[CRs1Index(instr)]);
      o := CJalr(h, instr);
    }
  }

  /** C.BEQZ and C.BNEZ, which redirect the pc when taken. */
  method CompressedBranch(h: Hart, instr: Word, k: CKind) returns (o: Outcome)
    requires h.Valid() && (k.CBeqzK? || k.CBnezK?)
    modifies h
    ensures h.Valid() && h.OnlyPcChanged() && o == Continue
    ensures var t := KindTarget(k, instr, old(h.pc), old(h.x[..]));
      (t.Some? ==> h.pc == t.value && !h.updatePc)
      && (t.None? ==> h.pc == old(h.pc) && h.updatePc == old(h.updatePc))
    ensures h.x[..] == old(h.x[..]) && h.d[..] == old(h.d[..]) && SystemKept(h)
  {
    ghost var pc0, x0 := h.pc, h.x[..];
    assert KindTarget(k, instr, pc0, x0) == BranchTarget(k.CBeqzK?, instr, pc0, x0[CRs1PrimeIndex(instr)]);
    o := CBranch(h, instr, k.CBeqzK?);
  }

  /** The compressed loads and stores: C.FLD, C.LW, C.FSD and C.SW at `x[rs1'] + offset` with
      `rs2'` as data register, and C.FLDSP, C.LWSP, C.FSDSP and C.SWSP at `x2 + offset` with
      `rd` or `rs2` as data register. */
  method CompressedMemory(h: Hart, mmu: Mmu, instr: Word, k: CKind) returns (o: Outcome)
    requires h.Valid() && mmu.Valid() && (IsRegisterMemoryKind(k) || IsStackMemoryKind(k))
    modifies h.x, h.d, mmu, mmu.vmm.cache
    ensures h.Valid() && mmu.Valid() && o != Break && CMemoryStep(h, mmu, instr, k, o)
  {
    var addr := CompressedAddress(k, instr, h.x[..]);
    match k
    case CFldK => o := LoadDouble(h, mmu, addr, CRs2PrimeIndex(instr));
    case CLwK => o := LoadWord(h, mmu, addr, CRs2PrimeIndex(instr));
    case CFsdK => o := StoreDouble(h, mmu, addr, h.d[CRs2PrimeIndex(instr)]);
    case CSwK => o := StoreWord(h, mmu, addr, h.x[CRs2PrimeIndex(instr)]);
    case CFldspK => o := LoadDouble(h, mmu, addr, CRs1Index(instr));
    case CLwspK => o := LoadWord(h, mmu, addr, CRs1Index(instr));
    case CFsdspK => o := StoreDouble(h, mmu, addr, h.d[CRs2Index(instr)]);
    case CSwspK => o := StoreWord(h, mmu, addr, h.x[CRs2Index(instr)]);
  }

  /** C.ADDI, C.LI, C.ADDI16SP, C.LUI and the arithmetic group. */
  method CompressedQuadrant1Arith(h: Hart, instr: Word, k: CKind) returns (o: Outcome)
    requires h.Valid() && IsQuadrant1ArithKind(k)
    modifies h.x
    ensures h.Valid() && o != Break
    ensures (o, h.x[..]) == CQuadrant1Step(k, instr, old(h.pc), old(h.x[..]))
    ensures h.d[..] == old(h.d[..]) && SystemKept(h)
  {
    match k
    case CAddiK => o := CAddi(h, instr);
    case CLiK => o := CLi(h, instr);
    case CAddi16spK => o := CAddi16sp(h, instr);
    case CLuiK => o := CLui(h, instr);
    case CAluK => o := CAlu(h, instr);
  }

  /** C.ADDI4SPN, C.SLLI, C.MV, C.ADD and the encodings that do nothing. */
  method CompressedOtherArith(h: Hart, instr: Word, k: CKind) returns (o: Outcome)
    requires h.Valid() && (k.CAddi4spnK? || k.CSlliK? || k.CMvK? || k.CAddK? || k.CNopK?)
    modifies h.x
    ensures h.Valid() && o != Break
    ensures (o, h.x[..]) == COtherStep(k, instr, old(h.pc), old(h.x[..]))
    ensures h.d[..] == old(h.d[..]) && SystemKept(h)
  {
    match k
    case CAddi4spnK => o := CAddi4spn(h, instr);
    case CSlliK => o := CSlli(h, instr);
    case CMvK => o := CMv(h, instr);
    case CAddK => o := CAdd(h, instr);
    case CNopK => o := Continue;
  }

  /** The compressed instructions that leave control alone. */
  method CompressedData(h: Hart, mmu: Mmu, instr: Word, k: CKind) returns (o: Outcome)
    requires h.Valid() && mmu.Valid() && !IsControlKind(k) && !k.CEbreakK?
    modifies h.x, h.d, mmu, mmu.vmm.cache
    ensures h.Valid() && mmu.Valid() && o != Break && CDataStep(h, mmu, instr, k, o)
    ensures k == CIllegalK ==>
      o == Raised(IllegalTrap(h.pc, instr)) && h.x[..] == old(h.x[..]) && h.d[..] == old(h.d[..])
      && unchanged(mmu)
  {
    if k == CIllegalK {
      o := Raised(IllegalTrap(h.pc, instr));
    } else if IsRegisterMemoryKind(k) || IsStackMemoryKind(k) {
      o := CompressedMemory(h, mmu, instr, k);
    } else if IsQuadrant1ArithKind(k) {
      o := CompressedQuadrant1Arith(h, instr, k);
    } else {
      o := CompressedOtherArith(h, instr, k);
    }
  }

  /** `exec_compressed`: the handler of a compressed instruction of kind `k` (`Exec` passes
      `CDecode(instr)`); C.EBREAK is a breakpoint. */
  method ExecCompressed(h: Hart, mmu: Mmu, instr: Word, k: CKind) returns (o: Outcome)
    requires h.Valid() && mmu.Valid()
    modifies h, h.x, h.d, mmu, mmu.vmm.cache
    ensures h.Valid() && mmu.Valid() && h.OnlyPcChanged()
    ensures var t := KindTarget(k, instr, old(h.pc), old(h.x[..]));
      (o == Continue && t.Some? ==> h.pc == t.value && !h.updatePc)
      && (o == Continue && t.None? ==> h.pc == old(h.pc) && h.updatePc == old(h.updatePc))
      && (o != Continue ==> h.pc == old(h.pc) && h.updatePc == old(h.updatePc))
    ensures o == Break <==> k == CEbreakK
    ensures CompressedStep(h, mmu, instr, k, o)
    ensures k == CIllegalK ==>
      o == Raised(IllegalTrap(h.pc, instr)) && h.x[..] == old(h.x[..]) && h.d[..] == old(h.d[..])
      && unchanged(mmu)
  {
    if k.CJalK? || k.CJK? || k.CJrK? || k.CJalrK? {
      o := CompressedJump(h, instr, k);
    } else if k.CBeqzK? || k.CBnezK? {
      o := CompressedBranch(h, instr, k);
    } else if k == CEbreakK {
      o := Break;
    } else {
      o := CompressedData(h, mmu, instr, k);
    }
  }

  /** `op_imm`, `lui`, `auipc` and `op`: register writes, and the breakpoint hint of `op`. */
  method BaseRegister(h: Hart, instr: Word) returns (o: Outcome)
    requires h.Valid()
    requires Opcode(instr) == 0x13 || Opcode(instr) == 0x37 || Opcode(instr) == 0x17 || Opcode(instr) == 0x33
    modifies h.x
    ensures h.Valid() && (o == Continue || o == Break)
    ensures o == Break ==> Opcode(instr) == 0x33 && IsBreakHint(instr)
    ensures Opcode(instr) == 0x33 && IsBreakHint(instr) ==> o == Break
    ensures (o, h.x[..]) == RegisterStep(instr, h.pc, old(h.x[..]))
    ensures h.d[..] == old(h.d[..]) && SystemKept(h)
  {
    var op := Opcode(instr);
    if op == 0x13 {
      o := OpImm(h, instr);
    } else if op == 0x37 {
      o := Lui(h, instr);
    } else if op == 0x17 {
      o := Auipc(h, instr);
    } else {
      o := Op(h, instr);
    }
  }

  /** `jal` and `jalr`, which always redirect the pc and link the next address in `rd`. */
  method BaseJump(h: Hart, instr: Word) returns (o: Outcome)
    requires h.Valid() && (Opcode(instr) == 0x6F || Opcode(instr) == 0x67)
    modifies h, h.x
    ensures h.Valid() && h.OnlyPcChanged() && o == Continue
    ensures h.pc == BaseTarget(instr, old(h.pc), old(h.x[..])).value && !h.updatePc
    ensures (o, h.x[..]) == ControlStep(instr, old(h.pc), old(h.x[..]))
    ensures h.d[..] == old(h.d[..]) && SystemKept(h)
  {
    ghost var pc0, x0 := h.pc, h.x[..];
    assert ControlStep(instr, pc0, x0) == (Continue, SetReg(x0, RdIndex(instr), Link(pc0, 4)));
    if Opcode(instr) == 0x6F {
      assert BaseTarget(instr, pc0, x0) == Some(Relative(pc0, ImmJ(instr)));
      o := Jal(h, instr);
    } else {
      assert BaseTarget(instr, pc0, x0) == Some(JalrTarget(instr, x0[Rs1Index(instr)]));
      o := Jalr(h, instr);
    }
  }

  /** `jal`, `jalr` and `b`. */
  method BaseControl(h: Hart, instr: Word) returns (o: Outcome)
    requires h.Valid() && (Opcode(instr) == 0x6F || Opcode(instr) == 0x67 || Opcode(instr) == 0x63)
    modifies h, h.x
    ensures h.Valid() && h.OnlyPcChanged() && o != Break
    ensures var t := BaseTarget(instr, old(h.pc), old(h.x[..]));
      (o == Continue && t.Some? ==> h.pc == t.value && !h.updatePc)
      && (o == Continue && t.None? ==> h.pc == old(h.pc) && h.updatePc == old(h.updatePc))
      && (o != Continue ==> h.pc == old(h.pc) && h.updatePc == old(h.updatePc))
    ensures (o, h.x[..]) == ControlStep(instr, old(h.pc), old(h.x[..]))
    ensures h.d[..] == old(h.d[..]) && SystemKept(h)
  {
    if Opcode(instr) == 0x63 {
      ghost var pc0, x0 := h.pc, h.x[..];
      assert BaseTarget(instr, pc0, x0) == BranchTarget32(instr, pc0, x0);
      o := Branch(h, instr);
    } else {
      o := BaseJump(h, instr);
    }
  }

  /** `load`, `store`, `load_fp`, `store_fp` and `amo`. */
  method BaseMemory(h: Hart, mmu: Mmu, instr: Word) returns (o: Outcome)
    requires h.Valid() && mmu.Valid()
    requires Opcode(instr) == 0x03 || Opcode(instr) == 0x23 || Opcode(instr) == 0x07 || Opcode(instr) == 0x27 || Opcode(instr) == 0x2F
    modifies h.x, h.d, mmu, mmu.vmm.cache
    ensures h.Valid() && mmu.Valid() && o != Break && MemoryStep(h, mmu, instr, o)
  {
    var op := Opcode(instr);
    if op == 0x03 {
      o := Load(h, mmu, instr);
    } else if op == 0x23 {
      o := Store(h, mmu, instr);
    } else if op == 0x07 {
      o := LoadFp(h, mmu, instr);
    } else if op == 0x27 {
      o := StoreFp(h, mmu, instr);
    } else {
      o := Amo(h, mmu, instr);
    }
  }

  /** `system`: `funct3` 0 is ECALL, EBREAK and the trap returns; the others are the CSR
      instructions. Neither moves the pc. */
  method BaseSystem(h: Hart, instr: Word, time: Dword) returns (o: Outcome)
    requires h.Valid()
    modifies h, h.x, h.csr
    ensures h.Valid() && h.pc == old(h.pc) && h.updatePc == old(h.updatePc)
    ensures o == Break ==> Funct3(instr) == 0 && PrivOpOf(ImmI(instr)) == EBreak
    ensures Funct3(instr) == 0 && PrivOpOf(ImmI(instr)) == EBreak ==> o == Break
    ensures Funct3(instr) == 0 || !IsCounterCsr(CsrNumber(instr)) ==> h.cycle == old(h.cycle)
    ensures Funct3(instr) == 0 ==> PrivStep(h, instr, o)
    ensures Funct3(instr) != 0 ==> CsrStep(h, instr, time, o)
  {
    if Funct3(instr) == 0 {
      o := Priv(h, instr);
    } else {
      ghost var c0, x0 := h.Csrs(), h.x[..];
      o := CsrInstr(h, instr, time);
      if IsCsrFunct3(Funct3(instr)) && !IsCounterCsr(CsrNumber(instr)) {
        var q := CsrRequestOf(instr, x0);
        UpdateCsrKeepsCounter(c0, h.priv, h.hartId, CsrNumber(instr), q.read, q.write, time);
      }
    }
  }

  /** `exec` for a 32-bit instruction: the handler its major opcode selects; an unknown
      opcode is illegal. */
  method ExecBase(h: Hart, mmu: Mmu, instr: Word, time: Dword, fpu: FloatUnit) returns (o: Outcome)
    requires h.Valid() && mmu.Valid() && COpcode(instr) == 3
    modifies h, h.x, h.d, h.csr, mmu, mmu.vmm.cache
    ensures h.Valid() && mmu.Valid()
    ensures var t := BaseTarget(instr, old(h.pc), old(h.x[..]));
      (o == Continue && t.Some? ==> h.pc == t.value && !h.updatePc)
      && (o == Continue && t.None? ==> h.pc == old(h.pc) && h.updatePc == old(h.updatePc))
      && (o != Continue ==> h.pc == old(h.pc) && h.updatePc == old(h.updatePc))
    ensures o == Break ==> IsBreakpoint(instr)
    ensures IsBreakpoint(instr) ==> o == Break
    ensures !WritesCounter(instr) ==> h.cycle == old(h.cycle)
    ensures BaseStep(h, mmu, instr, time, fpu, o)
    ensures !KnownOpcode(Opcode(instr)) ==>
      o == Raised(IllegalTrap(h.pc, instr)) && unchanged(h) && h.x[..] == old(h.x[..])
      && h.d[..] == old(h.d[..]) && h.csr[..] == old(h.csr[..]) && unchanged(mmu)
  {
    var op := Opcode(instr);
    if op == 0x6F || op == 0x67 || op == 0x63 {
      assert KnownOpcode(op) && !IsBreakpoint(instr) && !WritesCounter(instr);
      o := BaseControl(h, instr);
      return;
    }
    assert BaseTarget(instr, h.pc, h.x[..]) == None;
    if IsDataOpcode(op) {
      assert KnownOpcode(op) && !WritesCounter(instr);
      assert IsBreakpoint(instr) <==> op == 0x33 && IsBreakHint(instr);
      o := BaseData(h, mmu, instr, fpu);
    } else if op == 0x73 {
      assert KnownOpcode(op);
      assert IsBreakpoint(instr) <==> Funct3(instr) == 0 && PrivOpOf(ImmI(instr)) == EBreak;
      assert WritesCounter(instr) <==> Funct3(instr) != 0 && IsCounterCsr(CsrNumber(instr));
      o := BaseSystem(h, instr, time);
    } else {
      assert !KnownOpcode(op) && !IsBreakpoint(instr) && !WritesCounter(instr);
      o := Raised(IllegalTrap(h.pc, instr));
    }
  }


  /** The handlers of the data opcodes change registers and memory only; of them only the
      hint `slt x0, x1, _` stops the interpreter. */
  method BaseData(h: Hart, mmu: Mmu, instr: Word, fpu: FloatUnit) returns (o: Outcome)
    requires h.Valid() && mmu.Valid() && IsDataOpcode(Opcode(instr))
    modifies h.x, h.d, mmu, mmu.vmm.cache
    ensures h.Valid() && mmu.Valid()
    ensures o == Break <==> Opcode(instr) == 0x33 && IsBreakHint(instr)
    ensures DataStep(h, mmu, instr, fpu, o)
  {
    var op := Opcode(instr);
    if op == 0x13 || op == 0x37 || op == 0x17 || op == 0x33 {
      o := BaseRegister(h, instr);
    } else if op == 0x03 || op == 0x23 || op == 0x07 || op == 0x27 || op == 0x2F {
      o := BaseMemory(h, mmu, instr);
    } else if op == 0x0F {
      o := MiscMem(h, instr);
    } else {
      o := OpFp(h, instr, fpu);
    }
  }

  /** The CSR instructions that name the cycle counter, the only instructions that change it. */
  predicate WritesCounter(instr: Word)
  {
    COpcode(instr) == 3 && Opcode(instr) == 0x73 && Funct3(instr) != 0 && IsCounterCsr(CsrNumber(instr))
  }

  /** The encodings `exec` rejects as illegal whatever the state: an unknown major opcode,
      and the compressed encodings with no instruction. */
  predicate IsIllegalEncoding(instr: Word)
  {
    if COpcode(instr) != 3 then CDecode(instr) == CIllegalK else !KnownOpcode(Opcode(instr))
  }

  /** The handler `exec` selects for `instr`: `exec_compressed` with the decoded kind for a
      compressed instruction, the major opcode's handler otherwise. */
  method Dispatch(h: Hart, mmu: Mmu, instr: Word, time: Dword, fpu: FloatUnit) returns (o: Outcome)
    requires h.Valid() && mmu.Valid()
    modifies h, h.x, h.d, h.csr, mmu, mmu.vmm.cache
    ensures h.Valid() && mmu.Valid()
    ensures var t := if COpcode(instr) != 3 then CompressedTarget(instr, old(h.pc), old(h.x[..])) else BaseTarget(instr, old(h.pc), old(h.x[..]));
      (o == Continue && t.Some? ==> h.pc == t.value && !h.updatePc)
      && (o == Continue && t.None? ==> h.pc == old(h.pc) && h.updatePc == old(h.updatePc))
      && (o != Continue ==> h.pc == old(h.pc) && h.updatePc == old(h.updatePc))
    ensures o == Break <==> IsBreakpoint(instr)
    ensures !WritesCounter(instr) ==> h.cycle == old(h.cycle)
    ensures Step(h, mmu, instr, time, fpu, o)
    ensures IsIllegalEncoding(instr) ==>
      o == Raised(IllegalTrap(old(h.pc), instr)) && h.x[..] == old(h.x[..]) && h.d[..] == old(h.d[..])
      && unchanged(mmu)
  {
    if COpcode(instr) != 3 {
      CEbreakDecoded(instr);
      o := ExecCompressed(h, mmu, instr, CDecode(instr));
    } else {
      o := ExecBase(h, mmu, instr, time, fpu);
    }
  }

  /** `exec`: run the handler of `instr`, then step the pc. When the handler completes, the
      pc moves to `NextPc` and `updatePc` is set again; a breakpoint has moved the pc past
      itself; a trap or a failure leaves the pc at the instruction. */
  method Exec(h: Hart, mmu: Mmu, instr: Word, time: Dword, fpu: FloatUnit) returns (o: Outcome)
    requires h.Valid() && mmu.Valid()
    modifies h, h.x, h.d, h.csr, mmu, mmu.vmm.cache
    ensures h.Valid() && mmu.Valid()
    ensures o == Continue ==> h.updatePc && h.pc == NextPc(instr, old(h.pc), old(h.x[..]), old(h.updatePc))
    ensures o == Break ==> h.pc == Advance(old(h.pc), instr) && h.updatePc == old(h.updatePc)
    ensures o.Raised? || o.Error? ==> h.pc == old(h.pc) && h.updatePc == old(h.updatePc)
    ensures o == Break ==> IsBreakpoint(instr)
    ensures IsBreakpoint(instr) ==> o == Break
    ensures !WritesCounter(instr) ==> h.cycle == old(h.cycle)
    ensures Step(h, mmu, instr, time, fpu, o)
    ensures IsIllegalEncoding(instr) ==>
      o == Raised(IllegalTrap(old(h.pc), instr)) && h.x[..] == old(h.x[..]) && h.d[..] == old(h.d[..])
      && unchanged(mmu)
  {
    o := Dispatch(h, mmu, instr, time, fpu);
    // The step relation does not read the pc, which is all that changes from here.
    ghost var stepped := Step(h, mmu, instr, time, fpu, o);
    if o == Continue {
      if h.updatePc {
        h.pc := Advance(h.pc, instr);
      } else {
        h.updatePc := true;
      }
    } else if o == Break {
      h.pc := Advance(h.pc, instr);
    }
    assert Step(h, mmu, instr, time, fpu, o) == stepped;
  }
}
