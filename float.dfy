/** How `op_fp`, `load_fp` and `store_fp` route single-precision values. Floating-point
    arithmetic itself is not modelled: an operation is named by an `FpOp`, and the
    interpreter is given the function computing its 32-bit result (including the
    replacement of a NaN result by the canonical NaN that `setf` performs).
    A single-precision value lives in the low half of a 64-bit `d` register with the high
    half all ones (`setf`, and `load_fp` for FLW); `getf` reads the low half back. */
module Fp {
  import opened Words
  import opened Instruction

  datatype FpOp =
    | FAdd | FSub | FMul | FDiv | FSqrt | FMin | FMax
    | FCvtWS | FCvtWUS | FCvtSW | FCvtSWU
    | FSgnj | FSgnjn | FSgnjx | FClass | FEq | FLe | FLt

  /** The single-precision floating-point unit: the result bits of an operation on two
      32-bit operands. */
  type FloatUnit = (FpOp, Word, Word) -> Word

  /** What an OP-FP instruction does: write an operation's result to `d[rd]` through
      `setf`, or to `x[rd]` through `setx`; move a word into `d[rd]` or into `x[rd]`;
      or raise an illegal-instruction trap. */
  datatype FpAction =
    | ToFloat(op: FpOp, a: Word, b: Word)
    | ToInt(op: FpOp, a: Word, b: Word)
    | MoveToFloat(v: Word)
    | MoveToInt(v: Word)
    | FpIllegal

  /** The constants `op_fp` compares `funct5` with. They are seven-bit `funct7` values of
      the ISA, while `funct5` holds only the top five bits of the instruction. */
  const FADD: Word := 0x00
  const FSUB: Word := 0x04
  const FMUL: Word := 0x08
  const FDIV: Word := 0x0C
  const FSQRT: Word := 0x2C
  const FMIN_MAX: Word := 0x14
  const FCVT_W_S: Word := 0x60
  const FCVT_S_W: Word := 0x68
  const FSGNJ: Word := 0x10
  const FMV_X_W: Word := 0x70
  const FMV_W_X: Word := 0x78
  const FCMP: Word := 0x50
  const FCLASS: Word := 0x70

  /** `op_fp` on the operands it reads: `f1`/`f2` are the low halves of `d[rs1]`/`d[rs2]`
      (`getf`), `x1` is `x[rs1]` and `d1` is `d[rs1]`. Only the FLOAT format (2) is
      handled. FADD passes `src2` for both operands, as the source does. */
  function OpFpAction(instr: Word, f1: Word, f2: Word, x1: Word, d1: Dword): FpAction
  {
    var f5 := Funct5(instr);
    if Fmt(instr) != 2 then FpIllegal
    else if f5 == FADD then ToFloat(FAdd, f2, f2)
    else if f5 == FSUB then ToFloat(FSub, f1, f2)
    else if f5 == FMUL then ToFloat(FMul, f1, f2)
    else if f5 == FDIV then ToFloat(FDiv, f1, f2)
    else if f5 == FSQRT then ToFloat(FSqrt, f1, 0)
    else if f5 == FMIN_MAX then
      (if Rm(instr) == 0 then ToFloat(FMin, f1, f2)
       else if Rm(instr) == 1 then ToFloat(FMax, f1, f2)
       else FpIllegal)
    else if f5 == FCVT_W_S then
      (if Rs2(instr) == 0 then ToInt(FCvtWS, f1, 0)
       else if Rs2(instr) == 1 then ToInt(FCvtWUS, f1, 0)
       else FpIllegal)
    else if f5 == FCVT_S_W then
      (if Rs2(instr) == 0 then ToFloat(FCvtSW, x1, 0)
       else if Rs2(instr) == 1 then ToFloat(FCvtSWU, x1, 0)
       else FpIllegal)
    else if f5 == FSGNJ then
      (if Funct3(instr) == 0 then ToFloat(FSgnj, f1, f2)
       else if Funct3(instr) == 1 then ToFloat(FSgnjn, f1, f2)
       else if Funct3(instr) == 2 then ToFloat(FSgnjx, f1, f2)
       else FpIllegal)
    else if f5 == FMV_W_X then MoveToFloat(x1)
    else if f5 == FMV_X_W then
      (if Funct3(instr) == 0 then MoveToInt(Low32(d1))
       else if Funct3(instr) == 1 then ToInt(FClass, f1, 0)
       else FpIllegal)
    else if f5 == FCMP then
      (if Funct3(instr) == 2 then ToInt(FEq, f1, f2)
       else if Funct3(instr) == 0 then ToInt(FLe, f1, f2)
       else if Funct3(instr) == 1 then ToInt(FLt, f1, f2)
       else FpIllegal)
    else FpIllegal
  }

  /** The operations reached through `funct5`: only the constants below 32 can match, so
      FSQRT, the conversions, the moves, FCLASS and the comparisons are never executed and
      raise an illegal-instruction trap instead. */
  lemma WideConstantsUnreachable(instr: Word, f1: Word, f2: Word, x1: Word, d1: Dword)
    ensures var a := OpFpAction(instr, f1, f2, x1, d1);
      a.ToFloat? ==> a.op in {FAdd, FSub, FMul, FDiv, FMin, FMax, FSgnj, FSgnjn, FSgnjx}
    ensures !OpFpAction(instr, f1, f2, x1, d1).ToInt?
    ensures !OpFpAction(instr, f1, f2, x1, d1).MoveToFloat? && !OpFpAction(instr, f1, f2, x1, d1).MoveToInt?
  {
    assert Funct5(instr) < 32;
  }

  /** An FADD result never depends on `rs1`: the source adds `src2` to itself. */
  lemma AddIgnoresFirstOperand(instr: Word, f1: Word, f1': Word, f2: Word, x1: Word, d1: Dword)
    requires Fmt(instr) == 2 && Funct5(instr) == FADD
    ensures OpFpAction(instr, f1, f2, x1, d1) == OpFpAction(instr, f1', f2, x1, d1) == ToFloat(FAdd, f2, f2)
  {
  }

  /** The other binary operations pass `rs1` first and `rs2` second. */
  lemma OperandOrder(instr: Word, f1: Word, f2: Word, x1: Word, d1: Dword)
    requires Fmt(instr) == 2
    ensures var a := OpFpAction(instr, f1, f2, x1, d1);
      a.ToFloat? && a.op in {FSub, FMul, FDiv, FMin, FMax, FSgnj, FSgnjn, FSgnjx} ==> a.a == f1 && a.b == f2
  {
  }

  /** A format other than FLOAT is an illegal instruction. */
  lemma OtherFormatsIllegal(instr: Word, f1: Word, f2: Word, x1: Word, d1: Dword)
    requires Fmt(instr) != 2
    ensures OpFpAction(instr, f1, f2, x1, d1) == FpIllegal
  {
  }

  /** `setf`'s register image of a single-precision value: the value, sign-extended and
      then OR'ed with all ones in the high half. */
  function NanBox(v: Word): Dword
  {
    SignExtend32(v) | 0xFFFF_FFFF_0000_0000
  }

  /** The boxed value is the value under an all-ones high half, so `getf` reads it back. */
  lemma NanBoxHalves(v: Word)
    ensures NanBox(v) == Join64(0xFFFF_FFFF, v)
    ensures Low32(NanBox(v)) == v && High32(NanBox(v)) == 0xFFFF_FFFF
  {
    assert NanBox(v) == Join64(0xFFFF_FFFF, v);
  }
}
