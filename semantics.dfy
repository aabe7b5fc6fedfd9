/** The effect of one instruction on the machine state, as a relation between the state
    before it (`old`) and the state after it: the step relation the dispatch of `exec` and
    `exec_compressed` is proved against. The state is the register files, the CSR state and
    privilege mode of the hart, physical memory and the reservation word; each group of
    instructions is the step of its handler, and the parts a group cannot change are kept.
    The pc step is `Execute.NextPc`. */
module Semantics {
  import opened Words
  import opened Traps
  import opened Instruction
  import opened Alu
  import opened Csr
  import opened Harts
  import opened Physical
  import opened Mmus
  import opened Compressed
  import opened Fp
  import opened Handlers
  import opened MemoryOps
  import opened SystemOps
  import opened CompressedOps
  import opened States

  // `op_imm`, `lui`, `auipc` and `op`.

  /** The value the register operation of major opcode `Opcode(instr)` computes for `rd`. */
  function RegisterValue(instr: Word, pc: Word, x: seq<Word>): Word
    requires |x| == 32
  {
    var op := Opcode(instr);
    if op == 0x13 then OpImmValue(instr, x[Rs1Index(instr)])
    else if op == 0x37 then ImmU(instr)
    else if op == 0x17 then AuipcValue(instr, pc)
    else OpValue(instr, x[Rs1Index(instr)], x[Rs2Index(instr)])
  }

  /** A register operation writes its value to `rd`; the hint `slt x0, x1, _` of `op` is a
      breakpoint instead. */
  function RegisterStep(instr: Word, pc: Word, x: seq<Word>): (Outcome, seq<Word>)
    requires |x| == 32
  {
    if Opcode(instr) == 0x33 && IsBreakHint(instr) then (Break, x)
    else (Continue, SetReg(x, RdIndex(instr), RegisterValue(instr, pc, x)))
  }

  // `jal`, `jalr` and `b`.

  /** The registers a jump or branch leaves and its outcome: `jal` and `jalr` link the next
      address in `rd`; a branch writes nothing and is illegal for an undefined `funct3`. */
  function ControlStep(instr: Word, pc: Word, x: seq<Word>): (Outcome, seq<Word>)
    requires |x| == 32
  {
    var op := Opcode(instr);
    if op == 0x6F || op == 0x67 then (Continue, SetReg(x, RdIndex(instr), Link(pc, 4)))
    else if BranchTaken(Funct3(instr), x[Rs1Index(instr)], x[Rs2Index(instr)]).None? then
      (Raised(IllegalTrap(pc, instr)), x)
    else (Continue, x)
  }

  // `load`, `store`, `load_fp`, `store_fp` and `amo`.

  /** The memory instruction of major opcode `Opcode(instr)`: the step of its handler. */
  twostate predicate MemoryStep(h: Hart, mmu: Mmu, instr: Word, o: Outcome)
    requires old(h.Valid()) && old(mmu.Valid())
    reads h.x, h.d, h.csr, h`cycle, h`status, h`priv, mmu, mmu.vmm.cache
  {
    var op := Opcode(instr);
    if op == 0x03 then LoadStep(h, mmu, instr, o)
    else if op == 0x23 then StoreStep(h, mmu, instr, o)
    else if op == 0x07 then LoadFpStep(h, mmu, instr, o)
    else if op == 0x27 then StoreFpStep(h, mmu, instr, o)
    else AmoStep(h, mmu, instr, o)
  }

  // `misc_mem` and `op_fp`.

  /** Whether the major opcode is one of the data operations, whose handlers change
      registers and memory only. */
  predicate IsDataOpcode(op: Word)
  {
    op == 0x13 || op == 0x37 || op == 0x17 || op == 0x33
    || op == 0x03 || op == 0x23 || op == 0x07 || op == 0x27 || op == 0x2F
    || op == 0x0F || op == 0x43
  }

  /** The data operation of major opcode `Opcode(instr)`: a register operation writes `rd`
      alone; FENCE and FENCE.I do nothing, and `misc_mem` with any other `funct3` is
      illegal; OP-FP leaves memory alone. */
  twostate predicate DataStep(h: Hart, mmu: Mmu, instr: Word, fpu: FloatUnit, o: Outcome)
    requires old(h.Valid()) && old(mmu.Valid())
    reads h.x, h.d, h.csr, h`cycle, h`status, h`priv, mmu, mmu.vmm.cache
  {
    var op := Opcode(instr);
    if op == 0x13 || op == 0x37 || op == 0x17 || op == 0x33 then
      (o, h.x[..]) == RegisterStep(instr, old(h.pc), old(h.x[..])) && OnlyXChanged(h, mmu)
    else if op == 0x03 || op == 0x23 || op == 0x07 || op == 0x27 || op == 0x2F then MemoryStep(h, mmu, instr, o)
    else if op == 0x0F then
      o == (if Funct3(instr) <= 1 then Continue else Raised(IllegalTrap(old(h.pc), instr))) && StateKept(h, mmu)
    else OpFpStep(h, instr, fpu, o) && MemoryKept(mmu)
  }

  // `system`.

  /** `system`: `funct3` 0 selects the privileged instructions, every other one a CSR
      instruction; neither touches memory. */
  twostate predicate SystemStep(h: Hart, mmu: Mmu, instr: Word, time: Dword, o: Outcome)
    requires old(h.Valid()) && old(mmu.Valid())
    reads h.x, h.d, h.csr, h`cycle, h`status, h`priv, mmu, mmu.vmm.cache
  {
    MemoryKept(mmu) && if Funct3(instr) == 0 then PrivStep(h, instr, o) else CsrStep(h, instr, time, o)
  }

  /** A 32-bit instruction: the operation of its major opcode; a jump or branch writes at
      most `rd`, and an unknown opcode is illegal and changes nothing. */
  twostate predicate BaseStep(h: Hart, mmu: Mmu, instr: Word, time: Dword, fpu: FloatUnit, o: Outcome)
    requires old(h.Valid()) && old(mmu.Valid())
    reads h.x, h.d, h.csr, h`cycle, h`status, h`priv, mmu, mmu.vmm.cache
  {
    var op := Opcode(instr);
    if op == 0x6F || op == 0x67 || op == 0x63 then
      (o, h.x[..]) == ControlStep(instr, old(h.pc), old(h.x[..])) && OnlyXChanged(h, mmu)
    else if IsDataOpcode(op) then DataStep(h, mmu, instr, fpu, o)
    else if op == 0x73 then SystemStep(h, mmu, instr, time, o)
    else o == Raised(IllegalTrap(old(h.pc), instr)) && StateKept(h, mmu)
  }

  // The compressed instructions.

  /** The effective address of a compressed load or store: `x[rs1']` plus the offset of the
      register-based forms, or the offset plus `x2` of the stack-based ones. */
  function CompressedAddress(k: CKind, instr: Word, x: seq<Word>): Word
    requires |x| == 32
  {
    if k.CFldK? || k.CFsdK? then x[CRs1PrimeIndex(instr)] + DoubleOffset(instr)
    else if k.CLwK? || k.CSwK? then x[CRs1PrimeIndex(instr)] + WordOffset(instr)
    else if k.CFldspK? then FldspOffset(instr) + x[2]
    else if k.CLwspK? then LwspOffset(instr) + x[2]
    else if k.CFsdspK? then FsdspOffset(instr) + x[2]
    else SwspOffset(instr) + x[2]
  }

  /** The compressed loads and stores at `CompressedAddress`: `rs2'` is the data register
      of the register-based forms, `rd` of the stack loads and `rs2` of the stack stores. */
  twostate predicate CMemoryStep(h: Hart, mmu: Mmu, instr: Word, k: CKind, o: Outcome)
    requires old(h.Valid()) && old(mmu.Valid())
    reads h.x, h.d, h.csr, h`cycle, h`status, h`priv, mmu, mmu.vmm.cache
  {
    var addr := CompressedAddress(k, instr, old(h.x[..]));
    if k.CFldK? then LoadDoubleStep(h, mmu, addr, CRs2PrimeIndex(instr), o)
    else if k.CLwK? then LoadWordStep(h, mmu, addr, CRs2PrimeIndex(instr), o)
    else if k.CFsdK? then StoreDoubleStep(h, mmu, addr, old(h.d[CRs2PrimeIndex(instr)]), o)
    else if k.CSwK? then StoreWordStep(h, mmu, addr, old(h.x[CRs2PrimeIndex(instr)]), o)
    else if k.CFldspK? then LoadDoubleStep(h, mmu, addr, CRs1Index(instr), o)
    else if k.CLwspK? then LoadWordStep(h, mmu, addr, CRs1Index(instr), o)
    else if k.CFsdspK? then StoreDoubleStep(h, mmu, addr, old(h.d[CRs2Index(instr)]), o)
    else StoreWordStep(h, mmu, addr, old(h.x[CRs2Index(instr)]), o)
  }

  /** A write of `v` to `rd` that is illegal when `imm` is zero. */
  function NonZeroWrite(instr: Word, pc: Word, x: seq<Word>, imm: Word, rd: nat, v: Word): (Outcome, seq<Word>)
    requires |x| == 32 && rd < 32
  {
    if imm == 0 then (Raised(IllegalTrap(pc, instr)), x) else (Continue, SetReg(x, rd, v))
  }

  /** C.ADDI, C.LI, C.ADDI16SP, C.LUI and the arithmetic group of quadrant 1. */
  function CQuadrant1Step(k: CKind, instr: Word, pc: Word, x: seq<Word>): (Outcome, seq<Word>)
    requires |x| == 32
  {
    var rd := CRs1Index(instr);
    if k.CAddiK? then (Continue, SetReg(x, rd, BaseOpValue(0, 0, x[rd], Imm6(instr))))
    else if k.CLiK? then (Continue, SetReg(x, rd, Imm6(instr)))
    else if k.CAddi16spK? then NonZeroWrite(instr, pc, x, Addi16spImm(instr), 2, BaseOpValue(0, 0, x[2], Addi16spImm(instr)))
    else if k.CLuiK? then NonZeroWrite(instr, pc, x, LuiImm(instr), rd, LuiImm(instr))
    else
      var v := CAluValue(instr, x[CRs1PrimeIndex(instr)], x[CRs2PrimeIndex(instr)]);
      if v.None? then (Raised(IllegalTrap(pc, instr)), x) else (Continue, SetReg(x, CRs1PrimeIndex(instr), v.value))
  }

  /** C.ADDI4SPN, C.SLLI (on the corrected register), C.MV, C.ADD and the no-op encodings. */
  function COtherStep(k: CKind, instr: Word, pc: Word, x: seq<Word>): (Outcome, seq<Word>)
    requires |x| == 32
  {
    var rd := CRs1Index(instr);
    if k.CAddi4spnK? then
      NonZeroWrite(instr, pc, x, Addi4spnImm(instr), CRs2PrimeIndex(instr), BaseOpValue(0, 0, x[2], Addi4spnImm(instr)))
    else if k.CSlliK? then (Continue, SetReg(x, SlliTarget(instr), Shl(x[SlliTarget(instr)], ShiftAmount(instr))))
    else if k.CMvK? then (Continue, SetReg(x, rd, x[CRs2Index(instr)]))
    else if k.CAddK? then (Continue, SetReg(x, rd, BaseOpValue(0, 0, x[rd], x[CRs2Index(instr)])))
    else (Continue, x)
  }

  /** The registers after a compressed jump: C.JAL and C.JALR link the next address in x1. */
  function CJumpRegs(k: CKind, pc: Word, x: seq<Word>): seq<Word>
    requires |x| == 32
  {
    if k.CJalK? || k.CJalrK? then SetReg(x, 1, Link(pc, 2)) else x
  }

  /** The compressed loads and stores addressed off `x[rs1']`. */
  predicate IsRegisterMemoryKind(k: CKind)
  {
    k.CFldK? || k.CLwK? || k.CFsdK? || k.CSwK?
  }

  /** The compressed loads and stores addressed off the stack pointer x2. */
  predicate IsStackMemoryKind(k: CKind)
  {
    k.CFldspK? || k.CLwspK? || k.CFsdspK? || k.CSwspK?
  }

  /** The quadrant 1 register operations. */
  predicate IsQuadrant1ArithKind(k: CKind)
  {
    k.CAddiK? || k.CLiK? || k.CAddi16spK? || k.CLuiK? || k.CAluK?
  }

  /** The compressed instructions that leave control alone: the encodings with no
      instruction are illegal and change nothing, the loads and stores are their memory
      step, and the register operations write one register. */
  twostate predicate CDataStep(h: Hart, mmu: Mmu, instr: Word, k: CKind, o: Outcome)
    requires old(h.Valid()) && old(mmu.Valid())
    reads h.x, h.d, h.csr, h`cycle, h`status, h`priv, mmu, mmu.vmm.cache
  {
    if k == CIllegalK then o == Raised(IllegalTrap(old(h.pc), instr)) && StateKept(h, mmu)
    else if IsRegisterMemoryKind(k) || IsStackMemoryKind(k) then CMemoryStep(h, mmu, instr, k, o)
    else if IsQuadrant1ArithKind(k) then
      (o, h.x[..]) == CQuadrant1Step(k, instr, old(h.pc), old(h.x[..])) && OnlyXChanged(h, mmu)
    else (o, h.x[..]) == COtherStep(k, instr, old(h.pc), old(h.x[..])) && OnlyXChanged(h, mmu)
  }

  /** A compressed instruction of kind `k`: jumps link, branches change nothing, C.EBREAK is a
      breakpoint that changes nothing, and the others are their data operation. */
  twostate predicate CompressedStep(h: Hart, mmu: Mmu, instr: Word, k: CKind, o: Outcome)
    requires old(h.Valid()) && old(mmu.Valid())
    reads h.x, h.d, h.csr, h`cycle, h`status, h`priv, mmu, mmu.vmm.cache
  {
    if k.CJalK? || k.CJK? || k.CJrK? || k.CJalrK? then
      o == Continue && h.x[..] == CJumpRegs(k, old(h.pc), old(h.x[..])) && OnlyXChanged(h, mmu)
    else if k.CBeqzK? || k.CBnezK? then o == Continue && StateKept(h, mmu)
    else if k == CEbreakK then o == Break && StateKept(h, mmu)
    else CDataStep(h, mmu, instr, k, o)
  }

  /** One instruction: compressed when its low two bits are not both set. */
  twostate predicate Step(h: Hart, mmu: Mmu, instr: Word, time: Dword, fpu: FloatUnit, o: Outcome)
    requires old(h.Valid()) && old(mmu.Valid())
    reads h.x, h.d, h.csr, h`cycle, h`status, h`priv, mmu, mmu.vmm.cache
  {
    if COpcode(instr) != 3 then CompressedStep(h, mmu, instr, CDecode(instr), o)
    else BaseStep(h, mmu, instr, time, fpu, o)
  }

  // What every step keeps.

  /** Whether `instr` is a load, store or atomic operation, 32-bit or compressed. */
  predicate IsMemoryAccess(instr: Word)
  {
    if COpcode(instr) != 3 then IsRegisterMemoryKind(CDecode(instr)) || IsStackMemoryKind(CDecode(instr))
    else var op := Opcode(instr); op == 0x03 || op == 0x23 || op == 0x07 || op == 0x27 || op == 0x2F
  }

  /** Only the loads, stores and atomic operations touch memory or the reservation. */
  twostate lemma OnlyMemoryAccessesTouchMemory(h: Hart, mmu: Mmu, instr: Word, time: Dword, fpu: FloatUnit, o: Outcome)
    requires old(h.Valid()) && old(mmu.Valid()) && Step(h, mmu, instr, time, fpu, o)
    requires !IsMemoryAccess(instr)
    ensures MemoryKept(mmu)
  {
  }

  /** The registers, the CSR state, the mode and memory are as before. */
  twostate predicate ArchitectureKept(h: Hart, mmu: Mmu)
    reads h.x, h.d, h.csr, h`cycle, h`status, h`priv, mmu
  {
    h.x[..] == old(h.x[..]) && h.d[..] == old(h.d[..]) && SystemKept(h) && mmu.mem == old(mmu.mem)
  }

  /** A load, store or atomic operation that traps has changed no register, no CSR, not
      the mode and no memory: the trap is raised before the access writes anything. Only
      the reservation may have moved, by the read an atomic operation makes before it
      finds its `funct5` undefined or its write refused. */
  twostate lemma MemoryTrapsKeepState(h: Hart, mmu: Mmu, instr: Word, o: Outcome)
    requires old(h.Valid()) && old(mmu.Valid()) && MemoryStep(h, mmu, instr, o) && o.Raised?
    ensures ArchitectureKept(h, mmu)
  {
    var op := Opcode(instr);
    if op == 0x03 {
      assert LoadStep(h, mmu, instr, o);
    } else if op == 0x23 {
      assert StoreStep(h, mmu, instr, o);
    } else if op == 0x07 {
      assert LoadFpStep(h, mmu, instr, o);
    } else if op == 0x27 {
      assert StoreFpStep(h, mmu, instr, o);
    } else {
      assert AmoStep(h, mmu, instr, o);
    }
  }

  /** The same for the compressed loads and stores. */
  twostate lemma CMemoryTrapsKeepState(h: Hart, mmu: Mmu, instr: Word, k: CKind, o: Outcome)
    requires old(h.Valid()) && old(mmu.Valid()) && CMemoryStep(h, mmu, instr, k, o) && o.Raised?
    ensures ArchitectureKept(h, mmu)
  {
    var addr := CompressedAddress(k, instr, old(h.x[..]));
    if k.CFldK? {
      assert LoadDoubleStep(h, mmu, addr, CRs2PrimeIndex(instr), o);
    } else if k.CLwK? {
      assert LoadWordStep(h, mmu, addr, CRs2PrimeIndex(instr), o);
    } else if k.CFldspK? {
      assert LoadDoubleStep(h, mmu, addr, CRs1Index(instr), o);
    } else if k.CLwspK? {
      assert LoadWordStep(h, mmu, addr, CRs1Index(instr), o);
    }
  }
}
