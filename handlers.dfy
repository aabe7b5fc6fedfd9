/** The handlers of the 32-bit base instructions that touch only registers and the pc
    (`op_imm`, `lui`, `auipc`, `op`, `jal`, `jalr`, `b`, `misc_mem`) and of `op_fp`.
    Each one updates the hart in place and returns how the instruction ended. A handler
    that redirects control sets the pc and clears `updatePc`, as the source does; the
    pc step of an instruction that ends in a breakpoint is taken by `Exec`. */
module Handlers {
  import opened Words
  import opened Traps
  import opened Instruction
  import opened Alu
  import opened Harts
  import opened States
  import opened Fp

  /** `op_imm`: the result of the immediate operation goes to `rd` (nothing when `rd` is x0). */
  method OpImm(h: Hart, instr: Word) returns (o: Outcome)
    requires h.Valid()
    modifies h.x
    ensures h.Valid() && o == Continue
    ensures h.x[..] == SetReg(old(h.x[..]), RdIndex(instr), OpImmValue(instr, old(h.x[Rs1Index(instr)])))
  {
    var rd := RdIndex(instr);
    if rd == 0 {
      return Continue;
    }
    var src := h.x[Rs1Index(instr)];
    h.SetX(rd, OpImmValue(instr, src));
    return Continue;
  }

  /** `lui`: the U-immediate goes to `rd`. */
  method Lui(h: Hart, instr: Word) returns (o: Outcome)
    requires h.Valid()
    modifies h.x
    ensures h.Valid() && o == Continue
    ensures h.x[..] == SetReg(old(h.x[..]), RdIndex(instr), ImmU(instr))
  {
    h.SetX(RdIndex(instr), ImmU(instr));
    return Continue;
  }

  /** The value `auipc` writes: the U-immediate added to the pc of the instruction. */
  function AuipcValue(instr: Word, pc: Word): Word
  {
    ImmU(instr) + pc
  }

  /** `auipc`: the U-immediate plus the pc of this instruction goes to `rd`. */
  method Auipc(h: Hart, instr: Word) returns (o: Outcome)
    requires h.Valid()
    modifies h.x
    ensures h.Valid() && o == Continue
    ensures h.x[..] == SetReg(old(h.x[..]), RdIndex(instr), AuipcValue(instr, h.pc))
  {
    h.SetX(RdIndex(instr), AuipcValue(instr, h.pc));
    return Continue;
  }

  /** The breakpoint hint of `op`: `slt x0, x1, _` stops the interpreter. */
  predicate IsBreakHint(instr: Word)
  {
    Rd(instr) == 0 && Funct3(instr) == 2 && Rs1(instr) == 1
  }

  /** `op`: the register-register operation (M extension when `funct7` is 1) goes to `rd`;
      with `rd` x0 nothing is computed, and the hint `slt x0, x1, _` is a breakpoint. */
  method Op(h: Hart, instr: Word) returns (o: Outcome)
    requires h.Valid()
    modifies h.x
    ensures h.Valid()
    ensures IsBreakHint(instr) ==> o == Break && h.x[..] == old(h.x[..])
    ensures !IsBreakHint(instr) ==>
      o == Continue && h.x[..] == SetReg(old(h.x[..]), RdIndex(instr), OpValue(instr, old(h.x[Rs1Index(instr)]), old(h.x[Rs2Index(instr)])))
  {
    var rd := RdIndex(instr);
    if rd == 0 {
      if Funct3(instr) == 2 && Rs1(instr) == 1 {
        return Break;
      }
      return Continue;
    }
    var src1 := h.x[Rs1Index(instr)];
    var src2 := h.x[Rs2Index(instr)];
    h.SetX(rd, OpValue(instr, src1, src2));
    return Continue;
  }

  /** The return address a jump links: the address after the jumping instruction. */
  function Link(pc: Word, len: Word): Word
  {
    pc + len
  }

  /** The target of a pc-relative jump or branch. */
  function Relative(pc: Word, offset: Word): Word
  {
    pc + offset
  }

  /** `jal`: jump by the J-immediate and link the address of the next instruction. */
  method Jal(h: Hart, instr: Word) returns (o: Outcome)
    requires h.Valid()
    modifies h, h.x
    ensures h.Valid() && h.OnlyPcChanged() && o == Continue
    ensures h.pc == Relative(old(h.pc), ImmJ(instr)) && !h.updatePc
    ensures h.x[..] == SetReg(old(h.x[..]), RdIndex(instr), Link(old(h.pc), 4))
  {
    var oldPc := h.pc;
    h.pc := Relative(oldPc, ImmJ(instr));
    h.updatePc := false;
    h.SetX(RdIndex(instr), Link(oldPc, 4));
    return Continue;
  }

  /** The target of `jalr`: `rs1` plus the I-immediate with bit 0 cleared. */
  function JalrTarget(instr: Word, base: Word): (t: Word)
    ensures t & 1 == 0
    ensures t | ((base + ImmI(instr)) & 1) == base + ImmI(instr)
  {
    (base + ImmI(instr)) & 0xFFFF_FFFE
  }

  /** `jalr`: jump to `JalrTarget`, reading `rs1` before `rd` is written. */
  method Jalr(h: Hart, instr: Word) returns (o: Outcome)
    requires h.Valid()
    modifies h, h.x
    ensures h.Valid() && h.OnlyPcChanged() && o == Continue
    ensures h.pc == JalrTarget(instr, old(h.x[Rs1Index(instr)])) && !h.updatePc
    ensures h.x[..] == SetReg(old(h.x[..]), RdIndex(instr), Link(old(h.pc), 4))
  {
    var oldPc := h.pc;
    h.pc := JalrTarget(instr, h.x[Rs1Index(instr)]);
    h.updatePc := false;
    h.SetX(RdIndex(instr), Link(oldPc, 4));
    return Continue;
  }

  /** `b`: an undefined `funct3` is illegal; a taken branch moves the pc by the B-immediate;
      no register changes. */
  method Branch(h: Hart, instr: Word) returns (o: Outcome)
    requires h.Valid()
    modifies h
    ensures h.Valid() && h.OnlyPcChanged()
    ensures var taken := BranchTaken(Funct3(instr), old(h.x[Rs1Index(instr)]), old(h.x[Rs2Index(instr)]));
      (taken.None? ==> o == Raised(IllegalTrap(h.pc, instr)) && h.pc == old(h.pc) && h.updatePc == old(h.updatePc))
      && (taken == Some(false) ==> o == Continue && h.pc == old(h.pc) && h.updatePc == old(h.updatePc))
      && (taken == Some(true) ==> o == Continue && h.pc == Relative(old(h.pc), ImmB(instr)) && !h.updatePc)
  {
    var taken := BranchTaken(Funct3(instr), h.x[Rs1Index(instr)], h.x[Rs2Index(instr)]);
    if taken.None? {
      return Raised(IllegalTrap(h.pc, instr));
    }
    if taken.value {
      h.pc := Relative(h.pc, ImmB(instr));
      h.updatePc := false;
    }
    return Continue;
  }

  /** `misc_mem`: FENCE and FENCE.I do nothing; any other `funct3` is illegal. */
  method MiscMem(h: Hart, instr: Word) returns (o: Outcome)
    ensures Funct3(instr) <= 1 ==> o == Continue
    ensures Funct3(instr) > 1 ==> o == Raised(IllegalTrap(h.pc, instr))
  {
    if Funct3(instr) == 0 || Funct3(instr) == 1 {
      return Continue;
    }
    return Raised(IllegalTrap(h.pc, instr));
  }

  /** The integer registers after an OP-FP action: `setx` of an integer result or a moved word. */
  function FpIntRegs(x: seq<Word>, rd: nat, a: FpAction, fpu: FloatUnit): (r: seq<Word>)
    requires rd < |x|
    ensures !a.ToInt? && !a.MoveToInt? ==> r == x
  {
    match a
    case ToInt(op, p, q) => SetReg(x, rd, fpu(op, p, q))
    case MoveToInt(v) => SetReg(x, rd, v)
    case _ => x
  }

  /** The floating-point registers after an OP-FP action: a boxed result or moved word in `d[rd]`. */
  function FpFloatRegs(d: seq<Dword>, rd: nat, a: FpAction, fpu: FloatUnit): (r: seq<Dword>)
    requires rd < |d|
    ensures !a.ToFloat? && !a.MoveToFloat? ==> r == d
    ensures |r| == |d| && forall i :: 0 <= i < |d| && i != rd ==> r[i] == d[i]
  {
    match a
    case ToFloat(op, p, q) => d[rd := NanBox(fpu(op, p, q))]
    case MoveToFloat(v) => d[rd := NanBox(v)]
    case _ => d
  }

  /** An OP-FP instruction writes one register of one file: a value headed for `d[rd]`
      reads back through `getf`, and one headed for `x[rd]` is written by `setx`. */
  lemma FpActionWritesOneRegister(x: seq<Word>, d: seq<Dword>, rd: nat, a: FpAction, fpu: FloatUnit)
    requires rd < |x| && rd < |d|
    ensures FpIntRegs(x, rd, a, fpu) == x || FpFloatRegs(d, rd, a, fpu) == d
    ensures a.ToFloat? ==> Low32(FpFloatRegs(d, rd, a, fpu)[rd]) == fpu(a.op, a.a, a.b)
    ensures a.MoveToFloat? ==> Low32(FpFloatRegs(d, rd, a, fpu)[rd]) == a.v
  {
    match a
    case ToFloat(op, p, q) => NanBoxHalves(fpu(op, p, q));
    case MoveToFloat(v) => NanBoxHalves(v);
    case _ =>
  }

  /** `setf` or `setx` of one OP-FP action that is not illegal: the register files become
      `FpFloatRegs` and `FpIntRegs` of the old ones. */
  method ApplyFpAction(h: Hart, rd: nat, a: FpAction, fpu: FloatUnit)
    requires h.Valid() && rd < 32 && !a.FpIllegal?
    modifies h.x, h.d
    ensures h.Valid() && SystemKept(h)
    ensures h.x[..] == FpIntRegs(old(h.x[..]), rd, a, fpu)
    ensures h.d[..] == FpFloatRegs(old(h.d[..]), rd, a, fpu)
  {
    match a
    case ToFloat(op, p, q) => h.SetD(rd, NanBox(fpu(op, p, q)));
    case ToInt(op, p, q) => h.SetX(rd, fpu(op, p, q));
    case MoveToFloat(v) => h.SetD(rd, NanBox(v));
    case MoveToInt(v) => h.SetX(rd, v);
  }

  /** `op_fp`: the action `OpFpAction` selects on the low halves of `d[rs1]` and `d[rs2]`
      (`getf`), `x[rs1]` and `d[rs1]`, applied to the register files, a result for `d[rd]`
      boxed by `setf`; an encoding with no action is illegal and writes nothing. The CSR
      state never changes. */
  twostate predicate OpFpStep(h: Hart, instr: Word, fpu: FloatUnit, o: Outcome)
    requires old(h.Valid())
    reads h.x, h.d, h.csr, h`cycle, h`status, h`priv
  {
    SystemKept(h)
    && var a := OpFpAction(instr, Low32(old(h.d[Rs1Index(instr)])), Low32(old(h.d[Rs2Index(instr)])),
                           old(h.x[Rs1Index(instr)]), old(h.d[Rs1Index(instr)]));
    (a.FpIllegal? ==> o == Raised(IllegalTrap(old(h.pc), instr)) && h.x[..] == old(h.x[..]) && h.d[..] == old(h.d[..]))
    && (!a.FpIllegal? ==>
          o == Continue && h.x[..] == FpIntRegs(old(h.x[..]), RdIndex(instr), a, fpu)
          && h.d[..] == FpFloatRegs(old(h.d[..]), RdIndex(instr), a, fpu))
  }

  /** `op_fp`: select the action, then apply it. */
  method OpFp(h: Hart, instr: Word, fpu: FloatUnit) returns (o: Outcome)
    requires h.Valid()
    modifies h.x, h.d
    ensures h.Valid() && OpFpStep(h, instr, fpu, o)
  {
    var a := OpFpAction(instr, Low32(h.d[Rs1Index(instr)]), Low32(h.d[Rs2Index(instr)]), h.x[Rs1Index(instr)], h.d[Rs1Index(instr)]);
    if a.FpIllegal? {
      return Raised(IllegalTrap(h.pc, instr));
    }
    ApplyFpAction(h, RdIndex(instr), a, fpu);
    return Continue;
  }
}
