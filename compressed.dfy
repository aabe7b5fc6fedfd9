/** The immediates of the compressed (16-bit) instruction formats, as `exec_compressed`
    assembles them from the instruction's bits (chapter 16, "C" standard extension, of the
    RISC-V Unprivileged ISA, version 20191213). A signed immediate takes its sign from
    bit 12, spread over the high bits by `(bits(12) shl 31) shr (31 - k)`. Each encoder
    scatters an offset into the layout the ISA gives for its format and is the partner of
    the immediate it inverts. */
module Compressed {
  import opened Words
  import opened Instruction

  /** `(bits(12) shl 31) shr (31 - k)`: bit 12 copied into bits k..31. */
  function SignFill(instr: Word, k: Word): (r: Word)
    requires k < 32
  {
    Shr(Shl(Bit(instr, 12), 31), 31 - k)
  }

  /** C.ADDI4SPN: a zero-extended multiple of 4 below 1024, from nzuimm[5:4|9:6|2|3]. */
  function Addi4spnImm(instr: Word): (r: Word)
    ensures r & 3 == 0 && r < 1024
  {
    Shl(Bit(instr, 5), 3) | Shl(Bit(instr, 6), 2) | Shl(Bits(instr, 7, 10), 6) | Shl(Bits(instr, 11, 12), 4)
  }

  /** C.FLD and C.FSD: a multiple of 8 below 256, from uimm[5:3] (bits 12..10) and uimm[7:6]. */
  function DoubleOffset(instr: Word): (r: Word)
    ensures r & 7 == 0 && r < 256
  {
    Shl(Bits(instr, 10, 12), 3) | Shl(Bits(instr, 5, 6), 6)
  }

  /** C.LW and C.SW: a multiple of 4 below 128, from uimm[5:3] (bits 12..10) and uimm[2|6]. */
  function WordOffset(instr: Word): (r: Word)
    ensures r & 3 == 0 && r < 128
  {
    Shl(Bit(instr, 6), 2) | Shl(Bits(instr, 10, 12), 3) | Shl(Bit(instr, 5), 6)
  }

  /** C.ADDI, C.LI and C.ANDI: a signed 6-bit immediate, range [-32, 31]. */
  function Imm6(instr: Word): (r: Word)
    ensures r < 0x20 || r >= 0xFFFF_FFE0
  {
    Bits(instr, 2, 6) | SignFill(instr, 5)
  }

  /** C.J and C.JAL: an even signed 12-bit offset, from offset[11|4|9:8|10|6|7|3:1|5]. */
  function JumpOffset(instr: Word): (r: Word)
    ensures r & 1 == 0
    ensures r < 0x800 || r >= 0xFFFF_F800
  {
    Shl(Bit(instr, 2), 5) | Shl(Bits(instr, 3, 5), 1) | Shl(Bit(instr, 6), 7) | Shl(Bit(instr, 7), 6)
    | Shl(Bit(instr, 8), 10) | Shl(Bits(instr, 9, 10), 8) | Shl(Bit(instr, 11), 4) | SignFill(instr, 11)
  }

  /** C.ADDI16SP: a signed multiple of 16 in [-512, 496], from nzimm[9|4|6|8:7|5]. */
  function Addi16spImm(instr: Word): (r: Word)
    ensures r & 15 == 0
    ensures r < 0x200 || r >= 0xFFFF_FE00
  {
    Shl(Bit(instr, 2), 5) | Shl(Bits(instr, 3, 4), 7) | Shl(Bit(instr, 5), 6) | Shl(Bit(instr, 6), 4)
    | SignFill(instr, 9)
  }

  /** C.LUI: a signed 18-bit value whose low 12 bits are zero. */
  function LuiImm(instr: Word): (r: Word)
    ensures r & 0xFFF == 0
    ensures r < 0x2_0000 || r >= 0xFFFE_0000
  {
    Shl(Bits(instr, 2, 6), 12) | SignFill(instr, 17)
  }

  /** C.BEQZ and C.BNEZ: an even signed 9-bit offset, from offset[8|4:3] and offset[7:6|2:1|5]. */
  function BranchOffset(instr: Word): (r: Word)
    ensures r & 1 == 0
    ensures r < 0x100 || r >= 0xFFFF_FF00
  {
    Shl(Bit(instr, 2), 5) | Shl(Bits(instr, 3, 4), 1) | Shl(Bits(instr, 5, 6), 6) | Shl(Bits(instr, 10, 11), 3)
    | SignFill(instr, 8)
  }

  /** C.SRLI, C.SRAI and C.SLLI: the shift amount in bits 6..2. */
  function ShiftAmount(instr: Word): (r: Word)
    ensures r < 32 && r == CRs2(instr)
  {
    Bits(instr, 2, 6)
  }

  /** C.FLDSP: a multiple of 8 below 512, from uimm[5] (bit 12) and uimm[4:3|8:6]. */
  function FldspOffset(instr: Word): (r: Word)
    ensures r & 7 == 0 && r < 512
  {
    Shl(Bits(instr, 2, 4), 6) | Shl(Bit(instr, 12), 5) | Shl(Bits(instr, 5, 6), 3)
  }

  /** C.LWSP: a multiple of 4 below 256, from uimm[5] (bit 12) and uimm[4:2|7:6]. */
  function LwspOffset(instr: Word): (r: Word)
    ensures r & 3 == 0 && r < 256
  {
    Shl(Bits(instr, 2, 3), 6) | Shl(Bit(instr, 12), 5) | Shl(Bits(instr, 4, 6), 2)
  }

  /** C.FSDSP: a multiple of 8 below 512, from uimm[5:3|8:6] (bits 12..7). */
  function FsdspOffset(instr: Word): (r: Word)
    ensures r & 7 == 0 && r < 512
  {
    Shl(Bits(instr, 10, 12), 3) | Shl(Bits(instr, 7, 9), 6)
  }

  /** C.SWSP: a multiple of 4 below 256, from uimm[5:2|7:6] (bits 12..7). */
  function SwspOffset(instr: Word): (r: Word)
    ensures r & 3 == 0 && r < 256
  {
    Shl(Bits(instr, 9, 12), 2) | Shl(Bits(instr, 7, 8), 6)
  }

  // Encoders.

  /** CJ-format word (C.J, C.JAL): funct3, the offset scattered over bits 12..2, quadrant 1. */
  function EncodeCJ(funct3: Word, offset: Word): Word
    requires funct3 < 8 && offset & 1 == 0 && (offset < 0x800 || offset >= 0xFFFF_F800)
  {
    (funct3 << 13) | (((offset >> 11) & 1) << 12) | (((offset >> 4) & 1) << 11) | (((offset >> 8) & 3) << 9)
    | (((offset >> 10) & 1) << 8) | (((offset >> 6) & 1) << 7) | (((offset >> 7) & 1) << 6)
    | (((offset >> 1) & 7) << 3) | (((offset >> 5) & 1) << 2) | 1
  }

  /** Decoding a CJ-format word gives back its jump offset and its funct3. */
  lemma DecodeEncodeCJ(funct3: Word, offset: Word)
    requires funct3 < 8 && offset & 1 == 0 && (offset < 0x800 || offset >= 0xFFFF_F800)
    ensures var w := EncodeCJ(funct3, offset);
      JumpOffset(w) == offset && CFunct3(w) == funct3 && COpcode(w) == 1
  {
    if offset < 0x800 { DecodeEncodeCJPos(funct3, offset); } else { DecodeEncodeCJNeg(funct3, offset); }
  }

  lemma DecodeEncodeCJPos(funct3: Word, offset: Word)
    requires funct3 < 8 && offset & 1 == 0 && offset < 0x800
    ensures var w := EncodeCJ(funct3, offset);
      JumpOffset(w) == offset && CFunct3(w) == funct3 && COpcode(w) == 1
  {
  }

  lemma DecodeEncodeCJNeg(funct3: Word, offset: Word)
    requires funct3 < 8 && offset & 1 == 0 && offset >= 0xFFFF_F800
    ensures var w := EncodeCJ(funct3, offset);
      JumpOffset(w) == offset && CFunct3(w) == funct3 && COpcode(w) == 1
  {
  }

  /** CB-format branch word (C.BEQZ, C.BNEZ): funct3, offset[8|4:3], rs1', offset[7:6|2:1|5]. */
  function EncodeCB(funct3: Word, rs1p: Word, offset: Word): Word
    requires funct3 < 8 && 8 <= rs1p < 16 && offset & 1 == 0 && (offset < 0x100 || offset >= 0xFFFF_FF00)
  {
    (funct3 << 13) | (((offset >> 8) & 1) << 12) | (((offset >> 3) & 3) << 10) | ((rs1p - 8) << 7)
    | (((offset >> 6) & 3) << 5) | (((offset >> 1) & 3) << 3) | (((offset >> 5) & 1) << 2) | 1
  }

  /** Decoding a CB-format word gives back its branch offset, its register and its funct3. */
  lemma DecodeEncodeCB(funct3: Word, rs1p: Word, offset: Word)
    requires funct3 < 8 && 8 <= rs1p < 16 && offset & 1 == 0 && (offset < 0x100 || offset >= 0xFFFF_FF00)
    ensures var w := EncodeCB(funct3, rs1p, offset);
      BranchOffset(w) == offset && CRs1Prime(w) == rs1p && CFunct3(w) == funct3 && COpcode(w) == 1
  {
    if offset < 0x100 { DecodeEncodeCBPos(funct3, rs1p, offset); } else { DecodeEncodeCBNeg(funct3, rs1p, offset); }
  }

  lemma DecodeEncodeCBPos(funct3: Word, rs1p: Word, offset: Word)
    requires funct3 < 8 && 8 <= rs1p < 16 && offset & 1 == 0 && offset < 0x100
    ensures var w := EncodeCB(funct3, rs1p, offset);
      BranchOffset(w) == offset && CRs1Prime(w) == rs1p && CFunct3(w) == funct3 && COpcode(w) == 1
  {
  }

  lemma DecodeEncodeCBNeg(funct3: Word, rs1p: Word, offset: Word)
    requires funct3 < 8 && 8 <= rs1p < 16 && offset & 1 == 0 && offset >= 0xFFFF_FF00
    ensures var w := EncodeCB(funct3, rs1p, offset);
      BranchOffset(w) == offset && CRs1Prime(w) == rs1p && CFunct3(w) == funct3 && COpcode(w) == 1
  {
  }

  /** CL/CS-format word (C.LW, C.SW): funct3, uimm[5:3], rs1', uimm[2|6], rs2', quadrant 0. */
  function EncodeCLW(funct3: Word, rs1p: Word, rs2p: Word, offset: Word): Word
    requires funct3 < 8 && 8 <= rs1p < 16 && 8 <= rs2p < 16 && offset & 3 == 0 && offset < 128
  {
    (funct3 << 13) | (((offset >> 3) & 7) << 10) | ((rs1p - 8) << 7) | (((offset >> 2) & 1) << 6)
    | (((offset >> 6) & 1) << 5) | ((rs2p - 8) << 2)
  }

  /** Decoding a CL/CS-format word gives back its offset, its two registers and its funct3. */
  lemma DecodeEncodeCLW(funct3: Word, rs1p: Word, rs2p: Word, offset: Word)
    requires funct3 < 8 && 8 <= rs1p < 16 && 8 <= rs2p < 16 && offset & 3 == 0 && offset < 128
    ensures var w := EncodeCLW(funct3, rs1p, rs2p, offset);
      WordOffset(w) == offset && CRs1Prime(w) == rs1p && CRs2Prime(w) == rs2p
      && CFunct3(w) == funct3 && COpcode(w) == 0
  {
  }

  /** CI-format word (C.ADDI, C.LI): funct3, imm[5], rd, imm[4:0], quadrant 1. */
  function EncodeCI(funct3: Word, rd: Word, imm: Word): Word
    requires funct3 < 8 && rd < 32 && (imm < 0x20 || imm >= 0xFFFF_FFE0)
  {
    (funct3 << 13) | (((imm >> 5) & 1) << 12) | (rd << 7) | ((imm & 0x1F) << 2) | 1
  }

  /** Decoding a CI-format word gives back its immediate, its register and its funct3. */
  lemma DecodeEncodeCI(funct3: Word, rd: Word, imm: Word)
    requires funct3 < 8 && rd < 32 && (imm < 0x20 || imm >= 0xFFFF_FFE0)
    ensures var w := EncodeCI(funct3, rd, imm);
      Imm6(w) == imm && CRs1(w) == rd && CFunct3(w) == funct3 && COpcode(w) == 1
  {
    if imm < 0x20 { DecodeEncodeCIPos(funct3, rd, imm); } else { DecodeEncodeCINeg(funct3, rd, imm); }
  }

  lemma DecodeEncodeCIPos(funct3: Word, rd: Word, imm: Word)
    requires funct3 < 8 && rd < 32 && imm < 0x20
    ensures var w := EncodeCI(funct3, rd, imm);
      Imm6(w) == imm && CRs1(w) == rd && CFunct3(w) == funct3 && COpcode(w) == 1
  {
  }

  lemma DecodeEncodeCINeg(funct3: Word, rd: Word, imm: Word)
    requires funct3 < 8 && rd < 32 && imm >= 0xFFFF_FFE0
    ensures var w := EncodeCI(funct3, rd, imm);
      Imm6(w) == imm && CRs1(w) == rd && CFunct3(w) == funct3 && COpcode(w) == 1
  {
  }
}
