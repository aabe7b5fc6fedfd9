/** Bit-field views of a 32-bit RISC-V instruction word (chapter 2, "RV32I", and chapter 16,
    "C" standard extension, of the RISC-V Unprivileged ISA, version 20191213).
    Every view is a shift and a mask of the word; the immediates are sign-extended from
    bit 31 by an arithmetic shift. The encoders pack fields back into a word and are the
    partners of the views: decoding an encoded word gives back its fields. */
module Instruction {
  import opened Words

  /** `mask(n)`: the low `n` bits set. Kotlin takes the shift count modulo 32, so a
      32-bit mask comes out as 0. */
  function Mask(n: Word): (m: Word)
    ensures n & 31 != 0 ==> m >> (n & 31) == 0
    ensures n & 31 == 0 ==> m == 0
  {
    Shl(1, n) - 1
  }

  /** `bits(start, end)`: bits `start..end` (inclusive) of the word, moved down to bit 0.
      The source demands `start <= end`. */
  function Bits(instr: Word, s: Word, e: Word): (r: Word)
    requires s <= e < 32
    ensures e - s + 1 < 32 ==> r >> (e - s + 1) == 0
  {
    Shr(instr, s) & Mask(e - s + 1)
  }

  function Bit(instr: Word, s: Word): (r: Word)
    requires s < 32
    ensures r <= 1
  {
    Bits(instr, s, s)
  }

  // Base-format fields (section 2.2).

  function Opcode(instr: Word): (r: Word)
    ensures r == instr & 0x7F
  {
    Bits(instr, 0, 6)
  }

  function Rd(instr: Word): (r: Word)
    ensures r < 32 && r == (instr >> 7) & 0x1F
  {
    Bits(instr, 7, 11)
  }

  function Funct3(instr: Word): (r: Word)
    ensures r < 8 && r == (instr >> 12) & 0x7
  {
    Bits(instr, 12, 14)
  }

  function Rs1(instr: Word): (r: Word)
    ensures r < 32 && r == (instr >> 15) & 0x1F
  {
    Bits(instr, 15, 19)
  }

  function Rs2(instr: Word): (r: Word)
    ensures r < 32 && r == (instr >> 20) & 0x1F
  {
    Bits(instr, 20, 24)
  }

  function Funct7(instr: Word): (r: Word)
    ensures r < 128 && r == instr >> 25
  {
    Bits(instr, 25, 31)
  }

  // The register fields as indices into the register files.

  function RdIndex(instr: Word): (r: nat)
    ensures r < 32
  {
    Rd(instr) as nat
  }

  function Rs1Index(instr: Word): (r: nat)
    ensures r < 32
  {
    Rs1(instr) as nat
  }

  function Rs2Index(instr: Word): (r: nat)
    ensures r < 32
  {
    Rs2(instr) as nat
  }

  // Immediates (section 2.3). Each one is sign-extended from instruction bit 31.

  /** I-immediate: instruction bits 31..20, sign-extended; range [-2048, 2047]. */
  function ImmI(instr: Word): (r: Word)
    ensures r < 0x800 || r >= 0xFFFF_F800
    ensures (r < 0x8000_0000) == (instr < 0x8000_0000)
  {
    Shl(Shr(instr, 20), 0)
  }

  /** S-immediate: bits 31..25 and 11..7, sign-extended; range [-2048, 2047]. */
  function ImmS(instr: Word): (r: Word)
    ensures r < 0x800 || r >= 0xFFFF_F800
    ensures (r < 0x8000_0000) == (instr < 0x8000_0000)
  {
    Bits(instr, 7, 11) | Shl(Shr(instr, 25), 5)
  }

  /** B-immediate: an even offset in [-4096, 4094]. */
  function ImmB(instr: Word): (r: Word)
    ensures r & 1 == 0
    ensures r < 0x1000 || r >= 0xFFFF_F000
    ensures (r < 0x8000_0000) == (instr < 0x8000_0000)
  {
    Shl(Bits(instr, 8, 11), 1) | Shl(Bits(instr, 25, 30), 5) | Shl(Bit(instr, 7), 11) | Shl(Shr(instr, 31), 12)
  }

  /** U-immediate: bits 31..12 of the word in place, the low 12 bits zero. */
  function ImmU(instr: Word): (r: Word)
    ensures r & 0xFFF == 0
    ensures r >> 12 == instr >> 12
  {
    instr & 0xFFFF_F000
  }

  /** J-immediate: an even offset in [-2^20, 2^20 - 2]. */
  function ImmJ(instr: Word): (r: Word)
    ensures r & 1 == 0
    ensures r < 0x10_0000 || r >= 0xFFF0_0000
    ensures (r < 0x8000_0000) == (instr < 0x8000_0000)
  {
    Shl(Bits(instr, 21, 30), 1) | Shl(Bit(instr, 20), 11) | Shl(Bits(instr, 12, 19), 12) | Shl(Shr(instr, 31), 20)
  }

  // Floating-point fields.

  function Funct5(instr: Word): (r: Word)
    ensures r < 32 && r == instr >> 27
  {
    Bits(instr, 27, 31)
  }

  function Fmt(instr: Word): (r: Word)
    ensures r < 4 && r == (instr >> 25) & 3
  {
    Bits(instr, 25, 26)
  }

  function Rm(instr: Word): (r: Word)
    ensures r == Funct3(instr)
  {
    Bits(instr, 12, 14)
  }

  // Compressed fields (section 16.2). The primed register fields name x8..x15.

  function COpcode(instr: Word): (r: Word)
    ensures r < 4 && r == instr & 3
  {
    Bits(instr, 0, 1)
  }

  function CRs2(instr: Word): (r: Word)
    ensures r < 32 && r == (instr >> 2) & 0x1F
  {
    Bits(instr, 2, 6)
  }

  function CRs1(instr: Word): (r: Word)
    ensures r < 32 && r == Rd(instr)
  {
    Bits(instr, 7, 11)
  }

  function CFunct4(instr: Word): (r: Word)
    ensures r < 16 && r == (instr >> 12) & 0xF
  {
    Bits(instr, 12, 15)
  }

  function CFunct3(instr: Word): (r: Word)
    ensures r < 8 && r == (instr >> 13) & 0x7
  {
    Bits(instr, 13, 15)
  }

  function CRs1Prime(instr: Word): (r: Word)
    ensures 8 <= r <= 15 && r == 8 + ((instr >> 7) & 0x7)
  {
    Bits(instr, 7, 9) + 8
  }

  function CRs2Prime(instr: Word): (r: Word)
    ensures 8 <= r <= 15 && r == 8 + ((instr >> 2) & 0x7)
  {
    Bits(instr, 2, 4) + 8
  }

  function CFunct6(instr: Word): (r: Word)
    ensures r < 64 && r == (instr >> 10) & 0x3F
  {
    Bits(instr, 10, 15)
  }

  function CFunct2(instr: Word): (r: Word)
    ensures r < 4 && r == (instr >> 5) & 0x3
  {
    Bits(instr, 5, 6)
  }

  function CRs1Index(instr: Word): (r: nat)
    ensures r < 32
  {
    CRs1(instr) as nat
  }

  function CRs2Index(instr: Word): (r: nat)
    ensures r < 32
  {
    CRs2(instr) as nat
  }

  function CRs1PrimeIndex(instr: Word): (r: nat)
    ensures 8 <= r < 16
  {
    CRs1Prime(instr) as nat
  }

  function CRs2PrimeIndex(instr: Word): (r: nat)
    ensures 8 <= r < 16
  {
    CRs2Prime(instr) as nat
  }

  // Encoders: the partners of the views above.

  /** A 12-bit signed immediate held in a word (range [-2048, 2047]). */
  predicate IsImm12(imm: Word)
  {
    imm < 0x800 || imm >= 0xFFFF_F800
  }

  /** R-type word from its six fields. */
  function EncodeR(funct7: Word, rs2: Word, rs1: Word, funct3: Word, rd: Word, opcode: Word): Word
    requires funct7 < 128 && rs2 < 32 && rs1 < 32 && funct3 < 8 && rd < 32 && opcode < 128
  {
    (funct7 << 25) | (rs2 << 20) | (rs1 << 15) | (funct3 << 12) | (rd << 7) | opcode
  }

  lemma DecodeEncodeR(funct7: Word, rs2: Word, rs1: Word, funct3: Word, rd: Word, opcode: Word)
    requires funct7 < 128 && rs2 < 32 && rs1 < 32 && funct3 < 8 && rd < 32 && opcode < 128
    ensures var w := EncodeR(funct7, rs2, rs1, funct3, rd, opcode);
      Funct7(w) == funct7 && Rs2(w) == rs2 && Rs1(w) == rs1 && Funct3(w) == funct3
      && Rd(w) == rd && Opcode(w) == opcode
  {
  }

  /** I-type word: the immediate occupies bits 31..20. */
  function EncodeI(imm: Word, rs1: Word, funct3: Word, rd: Word, opcode: Word): Word
    requires IsImm12(imm) && rs1 < 32 && funct3 < 8 && rd < 32 && opcode < 128
  {
    (imm << 20) | (rs1 << 15) | (funct3 << 12) | (rd << 7) | opcode
  }

  lemma DecodeEncodeI(imm: Word, rs1: Word, funct3: Word, rd: Word, opcode: Word)
    requires IsImm12(imm) && rs1 < 32 && funct3 < 8 && rd < 32 && opcode < 128
    ensures var w := EncodeI(imm, rs1, funct3, rd, opcode);
      ImmI(w) == imm && Rs1(w) == rs1 && Funct3(w) == funct3 && Rd(w) == rd && Opcode(w) == opcode
  {
    if imm < 0x800 { DecodeEncodeIPos(imm, rs1, funct3, rd, opcode); } else { DecodeEncodeINeg(imm, rs1, funct3, rd, opcode); }
  }
  lemma DecodeEncodeIPos(imm: Word, rs1: Word, funct3: Word, rd: Word, opcode: Word)
    requires imm < 0x800 && rs1 < 32 && funct3 < 8 && rd < 32 && opcode < 128
    ensures var w := EncodeI(imm, rs1, funct3, rd, opcode);
      ImmI(w) == imm && Rs1(w) == rs1 && Funct3(w) == funct3 && Rd(w) == rd && Opcode(w) == opcode
  {
  }
  lemma DecodeEncodeINeg(imm: Word, rs1: Word, funct3: Word, rd: Word, opcode: Word)
    requires imm >= 0xFFFF_F800 && rs1 < 32 && funct3 < 8 && rd < 32 && opcode < 128
    ensures var w := EncodeI(imm, rs1, funct3, rd, opcode);
      ImmI(w) == imm && Rs1(w) == rs1 && Funct3(w) == funct3 && Rd(w) == rd && Opcode(w) == opcode
  {
  }

  /** S-type word: immediate bits 11..5 in bits 31..25 and bits 4..0 in bits 11..7. */
  function EncodeS(imm: Word, rs2: Word, rs1: Word, funct3: Word, opcode: Word): Word
    requires IsImm12(imm) && rs2 < 32 && rs1 < 32 && funct3 < 8 && opcode < 128
  {
    ((imm >> 5) << 25) | (rs2 << 20) | (rs1 << 15) | (funct3 << 12) | ((imm & 0x1F) << 7) | opcode
  }

  lemma DecodeEncodeS(imm: Word, rs2: Word, rs1: Word, funct3: Word, opcode: Word)
    requires IsImm12(imm)
    requires rs2 < 32 && rs1 < 32 && funct3 < 8 && opcode < 128
    ensures var w := EncodeS(imm, rs2, rs1, funct3, opcode);
      ImmS(w) == imm && Rs2(w) == rs2 && Rs1(w) == rs1 && Funct3(w) == funct3 && Opcode(w) == opcode
  {
    if imm < 0x800 { DecodeEncodeSPos(imm, rs2, rs1, funct3, opcode); } else { DecodeEncodeSNeg(imm, rs2, rs1, funct3, opcode); }
  }

  lemma DecodeEncodeSPos(imm: Word, rs2: Word, rs1: Word, funct3: Word, opcode: Word)
    requires imm < 0x800 && rs2 < 32 && rs1 < 32 && funct3 < 8 && opcode < 128
    ensures var w := EncodeS(imm, rs2, rs1, funct3, opcode);
      ImmS(w) == imm && Rs2(w) == rs2 && Rs1(w) == rs1 && Funct3(w) == funct3 && Opcode(w) == opcode
  {
  }

  lemma DecodeEncodeSNeg(imm: Word, rs2: Word, rs1: Word, funct3: Word, opcode: Word)
    requires imm >= 0xFFFF_F800 && rs2 < 32 && rs1 < 32 && funct3 < 8 && opcode < 128
    ensures var w := EncodeS(imm, rs2, rs1, funct3, opcode);
      ImmS(w) == imm && Rs2(w) == rs2 && Rs1(w) == rs1 && Funct3(w) == funct3 && Opcode(w) == opcode
  {
  }

  /** B-type word: an even 13-bit offset scattered over bits 31, 7, 30..25 and 11..8. */
  function EncodeB(imm: Word, rs2: Word, rs1: Word, funct3: Word, opcode: Word): Word
    requires (imm < 0x1000 || imm >= 0xFFFF_F000) && imm & 1 == 0
    requires rs2 < 32 && rs1 < 32 && funct3 < 8 && opcode < 128
  {
    (((imm >> 12) & 1) << 31) | (((imm >> 5) & 0x3F) << 25) | (rs2 << 20) | (rs1 << 15)
    | (funct3 << 12) | (((imm >> 1) & 0xF) << 8) | (((imm >> 11) & 1) << 7) | opcode
  }

  lemma DecodeEncodeB(imm: Word, rs2: Word, rs1: Word, funct3: Word, opcode: Word)
    requires (imm < 0x1000 || imm >= 0xFFFF_F000) && imm & 1 == 0
    requires rs2 < 32 && rs1 < 32 && funct3 < 8 && opcode < 128 && imm & 1 == 0
    ensures var w := EncodeB(imm, rs2, rs1, funct3, opcode);
      ImmB(w) == imm && Rs2(w) == rs2 && Rs1(w) == rs1 && Funct3(w) == funct3 && Opcode(w) == opcode
  {
    if imm < 0x1000 { DecodeEncodeBPos(imm, rs2, rs1, funct3, opcode); } else { DecodeEncodeBNeg(imm, rs2, rs1, funct3, opcode); }
  }

  lemma DecodeEncodeBPos(imm: Word, rs2: Word, rs1: Word, funct3: Word, opcode: Word)
    requires imm < 0x1000 && rs2 < 32 && rs1 < 32 && funct3 < 8 && opcode < 128 && imm & 1 == 0
    ensures var w := EncodeB(imm, rs2, rs1, funct3, opcode);
      ImmB(w) == imm && Rs2(w) == rs2 && Rs1(w) == rs1 && Funct3(w) == funct3 && Opcode(w) == opcode
  {
  }

  lemma DecodeEncodeBNeg(imm: Word, rs2: Word, rs1: Word, funct3: Word, opcode: Word)
    requires imm >= 0xFFFF_F000 && rs2 < 32 && rs1 < 32 && funct3 < 8 && opcode < 128 && imm & 1 == 0
    ensures var w := EncodeB(imm, rs2, rs1, funct3, opcode);
      ImmB(w) == imm && Rs2(w) == rs2 && Rs1(w) == rs1 && Funct3(w) == funct3 && Opcode(w) == opcode
  {
  }

  /** U-type word: the upper 20 bits of the immediate in place. */
  function EncodeU(imm: Word, rd: Word, opcode: Word): Word
    requires imm & 0xFFF == 0 && rd < 32 && opcode < 128
  {
    imm | (rd << 7) | opcode
  }

  lemma DecodeEncodeU(imm: Word, rd: Word, opcode: Word)
    requires imm & 0xFFF == 0 && rd < 32 && opcode < 128
    ensures var w := EncodeU(imm, rd, opcode);
      ImmU(w) == imm && Rd(w) == rd && Opcode(w) == opcode
  {
  }

  /** J-type word: an even 21-bit offset scattered over bits 31, 19..12, 20 and 30..21. */
  function EncodeJ(imm: Word, rd: Word, opcode: Word): Word
    requires (imm < 0x10_0000 || imm >= 0xFFF0_0000) && imm & 1 == 0
    requires rd < 32 && opcode < 128
  {
    (((imm >> 20) & 1) << 31) | (((imm >> 1) & 0x3FF) << 21) | (((imm >> 11) & 1) << 20)
    | (((imm >> 12) & 0xFF) << 12) | (rd << 7) | opcode
  }

  lemma DecodeEncodeJ(imm: Word, rd: Word, opcode: Word)
    requires (imm < 0x10_0000 || imm >= 0xFFF0_0000) && imm & 1 == 0
    requires rd < 32 && opcode < 128 && imm & 1 == 0
    ensures var w := EncodeJ(imm, rd, opcode);
      ImmJ(w) == imm && Rd(w) == rd && Opcode(w) == opcode
  {
    if imm < 0x10_0000 { DecodeEncodeJPos(imm, rd, opcode); } else { DecodeEncodeJNeg(imm, rd, opcode); }
  }

  lemma DecodeEncodeJPos(imm: Word, rd: Word, opcode: Word)
    requires imm < 0x10_0000 && rd < 32 && opcode < 128 && imm & 1 == 0
    ensures var w := EncodeJ(imm, rd, opcode);
      ImmJ(w) == imm && Rd(w) == rd && Opcode(w) == opcode
  {
  }

  lemma DecodeEncodeJNeg(imm: Word, rd: Word, opcode: Word)
    requires imm >= 0xFFF0_0000 && rd < 32 && opcode < 128 && imm & 1 == 0
    ensures var w := EncodeJ(imm, rd, opcode);
      ImmJ(w) == imm && Rd(w) == rd && Opcode(w) == opcode
  {
  }

  /** The all-ones word decodes to -1 in both the I- and the S-immediate. */
  lemma AllOnesImmediates()
    ensures ImmI(0xFFFF_FFFF) == 0xFFFF_FFFF && ImmS(0xFFFF_FFFF) == 0xFFFF_FFFF
  {
  }
}
