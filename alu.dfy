/** The value computations of the integer instructions (`op_imm`, `op`, `b` and `amo` in
    `opcodes.kt`): the base integer operations of chapter 2 of the RISC-V Unprivileged ISA,
    the "M" extension of chapter 7 and the word AMOs of section 8.4. Each function takes the
    operand values the handler read from the registers or memory and gives the value the
    handler writes, or `None` where the handler raises an illegal-instruction trap. */
module Alu {
  import opened Words
  import opened Traps
  import opened Instruction

  /** The shift amount of an immediate shift: the low five bits of the I-immediate. */
  function Shamt(instr: Word): (n: Word)
    ensures n < 32
  {
    ImmI(instr) & 31
  }

  /** The shift amount of an immediate shift is the instruction's field at bits 24:20. */
  lemma ShamtIsRs2Field(instr: Word)
    ensures Shamt(instr) == Rs2(instr)
  {
  }

  /** `op_imm`'s `when (funct3)` on `src = x[rs1]` and `immed_i`. SRLI and SRAI share funct3
      101 and are told apart by instruction bit 30. */
  function OpImmValue(instr: Word, src: Word): Word
  {
    var imm := ImmI(instr);
    var f3 := Funct3(instr);
    if f3 == 0 then src + imm
    else if f3 == 2 then (if SignedLess(src, imm) then 1 else 0)
    else if f3 == 3 then (if src < imm then 1 else 0)
    else if f3 == 4 then src ^ imm
    else if f3 == 6 then src | imm
    else if f3 == 7 then src & imm
    else if f3 == 1 then Shl(src, Shamt(instr))
    else if Bit(instr, 30) == 0 then Ushr(src, Shamt(instr))
    else Shr(src, Shamt(instr))
  }

  /** SRLI and SRAI (and SRL and SRA) give the same value on a non-negative operand. */
  lemma ShiftRightAgree(src: Word, n: Word)
    requires src < 0x8000_0000
    ensures Shr(src, n) == Ushr(src, n)
  {
  }

  /** The right shifts by immediate: bit 30 clear is logical, set is arithmetic, and the two
      agree on a non-negative operand. */
  lemma OpImmShiftRight(instr: Word, src: Word)
    requires Funct3(instr) == 5
    ensures Bit(instr, 30) == 0 ==> OpImmValue(instr, src) == src >> Rs2(instr)
    ensures Bit(instr, 30) == 1 ==> OpImmValue(instr, src) == Shr(src, Rs2(instr))
    ensures src < 0x8000_0000 ==> OpImmValue(instr, src) == src >> Rs2(instr)
  {
    ShamtIsRs2Field(instr);
  }

  /** SLTI compares signed and gives 1 exactly when `x[rs1]` is less than the immediate,
      0 otherwise. */
  lemma OpImmSetLessSigned(instr: Word, src: Word)
    requires Funct3(instr) == 2
    ensures SignedLess(src, ImmI(instr)) ==> OpImmValue(instr, src) == 1
    ensures !SignedLess(src, ImmI(instr)) ==> OpImmValue(instr, src) == 0
  {
  }

  /** SLTIU compares unsigned. The immediate is sign-extended first, so SLTIU with
      immediate 1 tests for zero. */
  lemma OpImmSetLessUnsigned(instr: Word, src: Word)
    requires Funct3(instr) == 3
    ensures src < ImmI(instr) ==> OpImmValue(instr, src) == 1
    ensures src >= ImmI(instr) ==> OpImmValue(instr, src) == 0
    ensures ImmI(instr) == 1 ==> (OpImmValue(instr, src) == 1 ==> src == 0)
    ensures ImmI(instr) == 1 ==> (src == 0 ==> OpImmValue(instr, src) == 1)
  {
  }

  /** The base `op` operations: `funct3` and bit 30 select the operation; shift counts are the
      low five bits of `src2`. */
  function BaseOpValue(funct3: Word, bit30: Word, src1: Word, src2: Word): Word
  {
    if funct3 == 0 then (if bit30 == 0 then src1 + src2 else src1 - src2)
    else if funct3 == 1 then Shl(src1, src2 & 31)
    else if funct3 == 5 then (if bit30 == 0 then Ushr(src1, src2 & 31) else Shr(src1, src2 & 31))
    else if funct3 == 2 then (if SignedLess(src1, src2) then 1 else 0)
    else if funct3 == 3 then (if src1 < src2 then 1 else 0)
    else if funct3 == 4 then src1 ^ src2
    else if funct3 == 6 then src1 | src2
    else src1 & src2
  }

  /** Register shifts use only the low five bits of `src2`. */
  lemma ShiftCountMasked(funct3: Word, bit30: Word, src1: Word, src2: Word)
    requires funct3 == 1 || funct3 == 5
    ensures BaseOpValue(funct3, bit30, src1, src2) == BaseOpValue(funct3, bit30, src1, src2 & 31)
  {
  }

  // The "M" extension (chapter 7). Products and quotients are taken on the integer readings
  // of the operands and brought back to a word with `FromInt`, which is what the 32- and
  // 64-bit wrap-around of the JVM arithmetic amounts to.

  /** MUL: `src1 * src2` on Kotlin `Int`, the low word of the product. */
  function Mul(a: Word, b: Word): Word
  {
    FromInt(Signed32(a) * Signed32(b))
  }

  /** MULH: the high word of the 64-bit product of the sign-extended operands (`shr 32` on a
      `Long` is a floor division by 2^32). */
  function MulH(a: Word, b: Word): Word
  {
    FromInt((Signed32(a) * Signed32(b)) / TWO32)
  }

  /** MULHU: the high word of the product of the zero-extended operands. */
  function MulHU(a: Word, b: Word): Word
  {
    FromInt((a as int * b as int) / TWO32)
  }

  /** MULHSU as written: `src1.toULong()` sign-extends `src1`, the product wraps at 2^64 and
      `shr 32` on a `ULong` is logical. */
  function MulHSU(a: Word, b: Word): Word
  {
    FromInt(((Signed32(a) % 0x1_0000_0000_0000_0000) * b as int % 0x1_0000_0000_0000_0000) / TWO32)
  }

  /** The signed-times-unsigned high word of section 7.1: the high word of the exact
      product of the signed reading of `a` and the unsigned reading of `b`. */
  function MulHighSignedUnsigned(a: Word, b: Word): Word
  {
    FromInt((Signed32(a) * b as int) / TWO32)
  }

  /** The signed reading of a word lies in [-2^31, 2^31), the unsigned one in [0, 2^32). */
  lemma ReadingRanges(w: Word)
    ensures -0x8000_0000 <= Signed32(w) < 0x8000_0000
    ensures 0 <= w as int < TWO32
  {
  }

  /** MULHSU as written is the signed-times-unsigned high word: the 64-bit wrap of a negative
      product adds 2^64, which adds 2^32 to the high word and vanishes in its low 32 bits. */
  lemma MulHsuIsSignedUnsigned(a: Word, b: Word)
    ensures MulHSU(a, b) == MulHighSignedUnsigned(a, b)
  {
    ReadingRanges(a);
    ReadingRanges(b);
    WrappedHighWord(Signed32(a), b as int);
  }

  /** The integer core of `MulHsuIsSignedUnsigned`. */
  lemma WrappedHighWord(sa: int, ub: int)
    requires -0x8000_0000 <= sa < 0x8000_0000 && 0 <= ub < TWO32
    ensures FromInt(((sa % 0x1_0000_0000_0000_0000) * ub % 0x1_0000_0000_0000_0000) / TWO32)
         == FromInt((sa * ub) / TWO32)
  {
    var p := sa * ub;
    ProductBound(sa, ub);
    var w := (sa % 0x1_0000_0000_0000_0000) * ub % 0x1_0000_0000_0000_0000;
    if sa >= 0 {
      WrappedNonNegative(sa, ub, p);
    } else {
      WrappedNegative(sa, ub, p);
    }
    SameLowWord(w / TWO32, p / TWO32);
  }

  lemma SameLowWord(x: int, y: int)
    requires x % TWO32 == y % TWO32
    ensures FromInt(x) == FromInt(y)
  {
  }

  lemma WrappedNonNegative(sa: int, ub: int, p: int)
    requires 0 <= sa < 0x8000_0000 && 0 <= ub < TWO32 && p == sa * ub
    requires -0x8000_0000_0000_0000 <= p < 0x8000_0000_0000_0000
    ensures ((sa % 0x1_0000_0000_0000_0000) * ub % 0x1_0000_0000_0000_0000) / TWO32 % TWO32 == p / TWO32 % TWO32
  {
    assert p >= 0;
  }

  lemma WrappedNegative(sa: int, ub: int, p: int)
    requires -0x8000_0000 <= sa < 0 && 0 <= ub < TWO32 && p == sa * ub
    requires -0x8000_0000_0000_0000 <= p < 0x8000_0000_0000_0000
    ensures ((sa % 0x1_0000_0000_0000_0000) * ub % 0x1_0000_0000_0000_0000) / TWO32 % TWO32 == p / TWO32 % TWO32
  {
    var M := 0x1_0000_0000_0000_0000;
    NegativeMod(sa);
    var t := (sa + M) * ub;
    Distribute(sa, ub, M);
    ModMultiple(p, ub);
    assert t % M == p % M;
    if p < 0 {
      NegativeMod(p);
      HighWordShift(p);
      AddModulus(p / TWO32);
    }
  }

  lemma NegativeMod(x: int)
    requires -0x1_0000_0000_0000_0000 <= x < 0
    ensures x % 0x1_0000_0000_0000_0000 == x + 0x1_0000_0000_0000_0000
  {
  }

  lemma AddModulus(x: int)
    ensures (x + TWO32) % TWO32 == x % TWO32
  {
  }

  lemma Distribute(x: int, y: int, z: int)
    ensures (x + z) * y == x * y + z * y
  {
  }

  lemma HighWordShift(p: int)
    ensures (p + 0x1_0000_0000_0000_0000) / TWO32 == p / TWO32 + TWO32
  {
  }

  lemma ModMultiple(p: int, k: int)
    ensures (p + 0x1_0000_0000_0000_0000 * k) % 0x1_0000_0000_0000_0000 == p % 0x1_0000_0000_0000_0000
  {
  }

  lemma ProductBound(sa: int, ub: int)
    requires -0x8000_0000 <= sa < 0x8000_0000 && 0 <= ub < TWO32
    ensures -0x8000_0000_0000_0000 <= sa * ub < 0x8000_0000_0000_0000
  {
    if sa >= 0 {
      MulLe(sa, ub, 0x8000_0000, TWO32 - 1);
    } else {
      MulLe(-sa, ub, 0x8000_0000, TWO32 - 1);
      NegMul(sa, ub);
    }
  }

  lemma MulLe(x: nat, y: nat, bx: nat, bound: nat)
    requires x <= bx && y <= bound
    ensures x * y <= bx * bound
  {
    assert x * y <= bx * y;
    assert bx * y <= bx * bound;
  }

  /** MUL's low word does not depend on the reading of its operands: the product of the
      signed readings and that of the unsigned ones agree modulo 2^32 (section 7.1). */
  lemma MulUnsignedReading(a: Word, b: Word)
    ensures Mul(a, b) == FromInt(a as int * b as int)
  {
    var i := if a < 0x8000_0000 then 0 else 1;
    var j := if b < 0x8000_0000 then 0 else 1;
    assert Signed32(a) == a as int - TWO32 * i && Signed32(b) == b as int - TWO32 * j;
    ProductCongruent(a as int, b as int, i, j);
    SameLowWord(Signed32(a) * Signed32(b), a as int * b as int);
  }

  /** The integer core of `MulUnsignedReading`. */
  lemma ProductCongruent(x: int, y: int, i: int, j: int)
    ensures ((x - TWO32 * i) * (y - TWO32 * j)) % TWO32 == (x * y) % TWO32
  {
    var k := TWO32 * i * j - x * j - y * i;
    assert (x - TWO32 * i) * (y - TWO32 * j) == x * y + TWO32 * k;
    AddMultiple(x * y, k);
  }

  lemma AddMultiple(p: int, k: int)
    ensures (p + TWO32 * k) % TWO32 == p % TWO32
  {
  }

  /** On non-negative operands the signed high product MULH and the unsigned MULHU agree. */
  lemma MulHighNonNegative(a: Word, b: Word)
    requires a < 0x8000_0000 && b < 0x8000_0000
    ensures MulH(a, b) == MulHU(a, b)
  {
  }

  /** DIV: division by zero gives -1, the overflowing `INT_MIN / -1` gives `INT_MIN`, and every
      other quotient is truncated toward zero. */
  function Div(a: Word, b: Word): Word
  {
    if b == 0 then 0xFFFF_FFFF
    else if a == INT_MIN && b == 0xFFFF_FFFF then INT_MIN
    else FromInt(TruncDiv(Signed32(a), Signed32(b)))
  }

  /** DIVU: division by zero gives all ones; otherwise the quotient of the unsigned readings. */
  function DivU(a: Word, b: Word): Word
  {
    if b == 0 then 0xFFFF_FFFF else FromInt(a as int / b as int)
  }

  /** REM: the remainder by zero is the dividend, `INT_MIN % -1` is 0, and every other
      remainder has the sign of the dividend. */
  function Rem(a: Word, b: Word): Word
  {
    if b == 0 then a
    else if a == INT_MIN && b == 0xFFFF_FFFF then 0
    else FromInt(TruncRem(Signed32(a), Signed32(b)))
  }

  /** REMU: the remainder by zero is the dividend; otherwise the remainder of the unsigned readings. */
  function RemU(a: Word, b: Word): Word
  {
    if b == 0 then a else FromInt(a as int % b as int)
  }

  /** The division corner cases of section 7.2: by zero, and the signed overflow. */
  lemma DivisionCornerCases(a: Word)
    ensures Div(a, 0) == 0xFFFF_FFFF && DivU(a, 0) == 0xFFFF_FFFF
    ensures Rem(a, 0) == a && RemU(a, 0) == a
    ensures Div(INT_MIN, 0xFFFF_FFFF) == INT_MIN && Rem(INT_MIN, 0xFFFF_FFFF) == 0
  {
  }

  /** Every other signed division: DIV and REM are the words of a truncating quotient `q` and a
      remainder `r` with `q * b + r == a`, `|r| < |b|`, `r` carrying the dividend's sign, and
      `q` representable in 32 bits. */
  lemma SignedDivision(a: Word, b: Word)
    requires b != 0 && !(a == INT_MIN && b == 0xFFFF_FFFF)
    ensures Signed32(b) != 0
    ensures Div(a, b) == FromInt(TruncDiv(Signed32(a), Signed32(b)))
    ensures Rem(a, b) == FromInt(TruncRem(Signed32(a), Signed32(b)))
    ensures TruncatingDivision(Signed32(a), Signed32(b))
  {
    ReadingRanges(a);
    ReadingRanges(b);
    NonZeroSigned(b);
    NotOverflow(a, b);
    TruncatingDivisionHolds(Signed32(a), Signed32(b));
  }

  /** What section 7.2 asks of a signed quotient `q` and remainder `r` of `x` by `y`. */
  predicate TruncatingDivision(x: int, y: int)
    requires y != 0
  {
    var q, r := TruncDiv(x, y), TruncRem(x, y);
    q * y + r == x && Abs(r) < Abs(y) && (r != 0 ==> (r < 0 <==> x < 0))
    && -0x8000_0000 <= q < 0x8000_0000
  }

  lemma TruncatingDivisionHolds(x: int, y: int)
    requires -0x8000_0000 <= x < 0x8000_0000 && -0x8000_0000 <= y < 0x8000_0000
    requires y != 0 && !(x == -0x8000_0000 && y == -1)
    ensures TruncatingDivision(x, y)
  {
    TruncDivRem(x, y);
    QuotientInRange(x, y);
  }

  lemma NonZeroSigned(b: Word)
    requires b != 0
    ensures Signed32(b) != 0
  {
  }

  lemma NotOverflow(a: Word, b: Word)
    requires !(a == INT_MIN && b == 0xFFFF_FFFF)
    ensures !(Signed32(a) == -0x8000_0000 && Signed32(b) == -1)
  {
    if Signed32(a) == -0x8000_0000 && Signed32(b) == -1 {
      MinValueOnly(a);
      MinusOneOnly(b);
    }
  }

  lemma MinValueOnly(a: Word)
    requires Signed32(a) == -0x8000_0000
    ensures a == INT_MIN
  {
  }

  lemma MinusOneOnly(b: Word)
    requires Signed32(b) == -1
    ensures b == 0xFFFF_FFFF
  {
  }

  /** Every other unsigned division: DIVU and REMU are the words of the quotient `q` and the
      remainder `r` of the unsigned readings, with `q * b + r == a` and `r < b`. */
  lemma UnsignedDivision(a: Word, b: Word)
    requires b != 0
    ensures b as int != 0
    ensures DivU(a, b) == FromInt(a as int / b as int) && RemU(a, b) == FromInt(a as int % b as int)
    ensures UnsignedQuotient(a as int, b as int)
  {
    ReadingRanges(a);
    ReadingRanges(b);
    NonZeroUnsigned(b);
    UnsignedQuotientHolds(a as int, b as int);
  }

  predicate UnsignedQuotient(x: int, y: int)
    requires y != 0
  {
    var q, r := x / y, x % y;
    q * y + r == x && 0 <= r < y && 0 <= q < TWO32
  }

  lemma UnsignedQuotientHolds(x: int, y: int)
    requires 0 <= x < TWO32 && 0 < y < TWO32
    ensures UnsignedQuotient(x, y)
  {
    var q, r := x / y, x % y;
    assert q * y + r == x;
    assert q >= 0;
    MulMono(q, y);
  }

  lemma NonZeroUnsigned(b: Word)
    requires b != 0
    ensures b as int != 0
  {
  }

  /** The "M" operations selected by `funct3` when `funct7` is 1. */
  function MulDivValue(funct3: Word, src1: Word, src2: Word): Word
  {
    if funct3 == 0 then Mul(src1, src2)
    else if funct3 == 1 then MulH(src1, src2)
    else if funct3 == 2 then MulHSU(src1, src2)
    else if funct3 == 3 then MulHU(src1, src2)
    else if funct3 == 4 then Div(src1, src2)
    else if funct3 == 5 then DivU(src1, src2)
    else if funct3 == 6 then Rem(src1, src2)
    else RemU(src1, src2)
  }

  /** `op`'s result for `src1 = x[rs1]`, `src2 = x[rs2]`: the "M" operations when `funct7` is 1,
      the base operations otherwise. */
  function OpValue(instr: Word, src1: Word, src2: Word): Word
  {
    if Funct7(instr) == 1 then MulDivValue(Funct3(instr), src1, src2)
    else BaseOpValue(Funct3(instr), Bit(instr, 30), src1, src2)
  }

  /** `b`'s `takeBranch`: the comparison `funct3` selects, or `None` for funct3 010 and 011,
      which raise an illegal-instruction trap. */
  function BranchTaken(funct3: Word, src1: Word, src2: Word): Option<bool>
  {
    if funct3 == 0 then Some(src1 == src2)
    else if funct3 == 1 then Some(src1 != src2)
    else if funct3 == 4 then Some(SignedLess(src1, src2))
    else if funct3 == 5 then Some(!SignedLess(src1, src2))
    else if funct3 == 6 then Some(src1 < src2)
    else if funct3 == 7 then Some(src1 >= src2)
    else None
  }

  /** The branch conditions come in pairs told apart by bit 0 of `funct3` (BEQ/BNE, BLT/BGE,
      BLTU/BGEU): the second of each pair is the negation of the first. Only 010 and 011 are
      undefined. */
  lemma BranchPairs(funct3: Word, src1: Word, src2: Word)
    requires funct3 < 8
    ensures BranchTaken(funct3, src1, src2).None? <==> funct3 == 2 || funct3 == 3
    ensures funct3 == 0 || funct3 == 4 || funct3 == 6 ==>
      BranchTaken(funct3 + 1, src1, src2) == Some(!BranchTaken(funct3, src1, src2).value)
  {
  }

  /** The signed order of `SignedLess` is a strict order. */
  lemma SignedLessStrict(a: Word, b: Word)
    ensures !SignedLess(a, a)
    ensures SignedLess(a, b) ==> !SignedLess(b, a)
  {
  }

  /** On two non-negative words the signed order is the unsigned one, and every negative
      word is below every non-negative one. */
  lemma SignedLessUnsigned(a: Word, b: Word)
    ensures a < 0x8000_0000 && b < 0x8000_0000 ==> (SignedLess(a, b) ==> a < b)
    ensures a < 0x8000_0000 && b < 0x8000_0000 ==> (a < b ==> SignedLess(a, b))
    ensures a >= 0x8000_0000 && b < 0x8000_0000 ==> SignedLess(a, b)
  {
  }

  /** Kotlin `max`/`min` on `Int` (signed) and on `UInt` (unsigned). */
  function MaxS(a: Word, b: Word): Word { if SignedLess(a, b) then b else a }
  function MinS(a: Word, b: Word): Word { if SignedLess(b, a) then b else a }
  function MaxU(a: Word, b: Word): Word { if a < b then b else a }
  function MinU(a: Word, b: Word): Word { if b < a then b else a }

  /** The word `amo` writes back for `funct5`, from the old memory word `mem` and `src = x[rs2]`;
      `None` for a `funct5` with no AMO (an illegal-instruction trap). */
  function AmoValue(funct5: Word, mem: Word, src: Word): Option<Word>
  {
    if funct5 == 1 then Some(src)
    else if funct5 == 0 then Some(mem + src)
    else if funct5 == 12 then Some(mem & src)
    else if funct5 == 8 then Some(mem | src)
    else if funct5 == 4 then Some(mem ^ src)
    else if funct5 == 20 then Some(MaxS(mem, src))
    else if funct5 == 28 then Some(MaxU(mem, src))
    else if funct5 == 16 then Some(MinS(mem, src))
    else if funct5 == 24 then Some(MinU(mem, src))
    else None
  }

  /** The nine AMO function codes are the only defined ones. */
  lemma AmoDefined(funct5: Word, mem: Word, src: Word)
    ensures AmoValue(funct5, mem, src).Some? ==> IsAmoFunct5(funct5)
  {
  }

  /** Each of the nine AMO function codes stores a value. */
  lemma AmoTotal(funct5: Word, mem: Word, src: Word)
    requires IsAmoFunct5(funct5)
    ensures AmoValue(funct5, mem, src).Some?
  {
    if funct5 == 0 || funct5 == 1 || funct5 == 4 || funct5 == 8 || funct5 == 12 {
    } else {
      assert funct5 == 16 || funct5 == 20 || funct5 == 24 || funct5 == 28;
    }
  }

  predicate IsAmoFunct5(funct5: Word)
  {
    funct5 == 0 || funct5 == 1 || funct5 == 4 || funct5 == 8 || funct5 == 12
    || funct5 == 16 || funct5 == 20 || funct5 == 24 || funct5 == 28
  }

  /** AMOMAX stores the larger of the two words in the signed order, AMOMIN the smaller. */
  lemma AmoSignedMinMax(mem: Word, src: Word)
    ensures var r := MaxS(mem, src);
      (r == mem || r == src) && !SignedLess(r, mem) && !SignedLess(r, src)
    ensures var r := MinS(mem, src);
      (r == mem || r == src) && !SignedLess(mem, r) && !SignedLess(src, r)
  {
  }

  /** AMOMAXU stores one of the two words, and no word it is compared with exceeds it
      in the unsigned order. */
  lemma AmoUnsignedMaxChoice(mem: Word, src: Word)
    ensures MaxU(mem, src) == mem || MaxU(mem, src) == src
  {
  }

  lemma AmoUnsignedMaxUpper(mem: Word, src: Word)
    ensures !(MaxU(mem, src) < mem) && !(MaxU(mem, src) < src)
  {
  }

  /** AMOMINU stores one of the two words, and none of them is below it in the unsigned order. */
  lemma AmoUnsignedMinChoice(mem: Word, src: Word)
    ensures MinU(mem, src) == mem || MinU(mem, src) == src
  {
  }

  lemma AmoUnsignedMinBelowMemory(mem: Word, src: Word)
    ensures MinU(mem, src) <= mem
  {
    MinBelowMemoryIfLess(mem, src);
    MinBelowMemoryOtherwise(mem, src);
  }

  lemma AmoUnsignedMinBelowRegister(mem: Word, src: Word)
    ensures MinU(mem, src) <= src
  {
    MinBelowRegisterIfLess(mem, src);
    MinBelowRegisterOtherwise(mem, src);
  }

  // One branch of `MinU` each: the unsigned-order solver handles them separately far
  // more cheaply than together.
  lemma MinBelowMemoryIfLess(mem: Word, src: Word)
    ensures src < mem ==> MinU(mem, src) <= mem
  {
  }

  lemma MinBelowMemoryOtherwise(mem: Word, src: Word)
    ensures !(src < mem) ==> MinU(mem, src) <= mem
  {
  }

  lemma MinBelowRegisterIfLess(mem: Word, src: Word)
    ensures src < mem ==> MinU(mem, src) <= src
  {
  }

  lemma MinBelowRegisterOtherwise(mem: Word, src: Word)
    ensures !(src < mem) ==> MinU(mem, src) <= src
  {
  }

  /** AMOSWAP stores the register; AMOADD applied to 0 and AMOOR/AMOXOR with 0 leave memory as it was. */
  lemma AmoIdentities(mem: Word, src: Word)
    ensures AmoValue(1, mem, src) == Some(src)
    ensures AmoValue(0, mem, 0) == Some(mem) && AmoValue(8, mem, 0) == Some(mem) && AmoValue(4, mem, 0) == Some(mem)
    ensures AmoValue(12, mem, 0xFFFF_FFFF) == Some(mem)
  {
  }
}
