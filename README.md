# RISC-V RV32 hart, memory system and devices

A model of the core of oc-riscv, a RISC-V emulator written in Kotlin. The emulated machine is
a single RV32IMAFDC hart with Sv32 virtual memory. The source declares the privilege mode
constant at machine level, yet MRET and SRET assign it; the model treats it as a mutable
mode so that supervisor and user levels and the page-table walk can be reached. The model covers:

- **The hart** (`Harts.Hart`). It holds the program counter, the 32 integer and 32
  floating-point registers, the privilege mode, the status fields of `mstatus` and
  `sstatus`, the trap CSRs and the cycle counter. With it go the raw CSR read and write
  operations and the privilege-checked `updateCsr`.
- **Decoding and execution.** An instruction word is taken apart with fixed bit fields
  (`Instruction`). One instruction runs per cycle: compressed (16-bit) ones in
  `CompressedOps`, the others in `Handlers`, `MemoryOps` and `SystemOps`, dispatched by
  `Execute.Exec`. The pc moves on by 2 or 4 unless the instruction set it.
- **The interpreter loop** (`Interpreter`). It runs in slices of 16 cycles. It stops early
  on a breakpoint (`ebreak`, `c.ebreak`, or the `slt x0, x1, _` hint) or on an error. As
  the machine-level driver does, it adds the cycles actually run to an executed-cycle
  total.
- **Memory.** This covers:
  - the physical address space, a map from addresses to bytes, little-endian (`Physical`);
  - the Sv32 page-table walk with its per-privilege, per-access-kind one-entry translation
    cache (`Sv32`);
  - the MMU, which chooses between bare and translated addressing and keeps the LR/SC
    reservation (`Mmus`).
- **Memory-mapped devices**, over a byte buffer that models `java.nio.ByteBuffer` with an
  explicit byte order (`Buffers`):
  - RAM, including its resize and the buffer position that resize moves (`RamDevice`);
  - ROM (`RomDevice`);
  - the RAM-size register (`RamSizeDevice`);
  - the core-local interruptor with `msip`, `mtimecmp` and `mtime` (`ClintDevice`);
  - a byte FIFO to the host (`Fifos`).
- **Host-side support:**
  - the tagged binary format in which calls and their values pass between the guest and
    host components, with its encoder and its stream decoder (`TaggedFormat`);
  - the table of host values handed to the guest by integer handle (`ValueTables`).

Words are `bv32` and `bv64` values. Kotlin's signed `Int` arithmetic is modelled on them
explicitly: two's complement, `shr` against `ushr`, shift counts taken modulo 32, and
division and remainder truncated toward zero. Where the source throws a trap, the model
returns a `Trap` value with the same cause, pc and trap value. Operations that update an
object in place are methods of a class with `modifies` clauses, and each is proved against
a function on values that specifies it. The register file and the floating-point register
file are arrays.

Where the source is evidently wrong (see "Findings"), the model keeps the code as written
as its own member, with a lemma that exhibits the difference, and the operations use the
corrected definition.

## Model

| member | source | states |
|---|---|---|
| Words.Shr | src/main/java/com/pwootage/riscwm/CPU/instr/opcodes.kt:500 | Kotlin `shr`: it agrees with `ushr` on non-negative words and keeps the sign of the word it shifts |
| Words.SignExtend32 | src/main/java/com/pwootage/riscwm/CPU/instr/opcodes.kt:531 | `Int.toLong()`: the low half is the word itself and the high half copies its sign bit |
| Words.Join64 | src/main/java/com/pwootage/riscwm/memory/devices/CLINTDevice.kt:74-111 | composing a double word from two halves; its high and low halves give the halves back |
| Words.TruncRem | src/main/java/com/pwootage/riscwm/CPU/instr/opcodes.kt:556 | the JVM remainder is smaller in magnitude than the divisor, and a non-zero remainder has the dividend's sign |
| Words.TruncDivRem | src/main/java/com/pwootage/riscwm/CPU/instr/opcodes.kt:540-556 | the JVM division identity: quotient times divisor plus remainder gives back the dividend |
| Words.QuotientBound | src/main/java/com/pwootage/riscwm/CPU/instr/opcodes.kt:540 | a truncating quotient is no larger in magnitude than the dividend, and at most half of it for a divisor of magnitude 2 or more |
| Words.QuotientInRange | src/main/java/com/pwootage/riscwm/CPU/instr/opcodes.kt:537-540 | a 32-bit truncating quotient fits in 32 bits in every case except `MIN_VALUE / -1` |
| Instruction.Mask | src/main/java/com/pwootage/riscwm/CPU/RiscVInstruction.kt:9-11 | `mask(n)` has no bit set at or above `n mod 32`. A 32-bit mask is 0, because the shift count is taken modulo 32 |
| Instruction.Bits | src/main/java/com/pwootage/riscwm/CPU/RiscVInstruction.kt:4-7 | `bits(start, end)` is narrower than `end - start + 1` bits |
| Instruction.Bit | src/main/java/com/pwootage/riscwm/CPU/RiscVInstruction.kt:4-7 | a single bit is 0 or 1 |
| Instruction.Opcode | src/main/java/com/pwootage/riscwm/CPU/RiscVInstruction.kt:13 | the opcode is instruction bits 6..0 |
| Instruction.Rd | src/main/java/com/pwootage/riscwm/CPU/RiscVInstruction.kt:14 | `rd` is bits 11..7, a register number below 32 |
| Instruction.Funct3 | src/main/java/com/pwootage/riscwm/CPU/RiscVInstruction.kt:15 | `funct3` is bits 14..12 |
| Instruction.Rs1 | src/main/java/com/pwootage/riscwm/CPU/RiscVInstruction.kt:16 | `rs1` is bits 19..15 |
| Instruction.Rs2 | src/main/java/com/pwootage/riscwm/CPU/RiscVInstruction.kt:17 | `rs2` is bits 24..20 |
| Instruction.Funct7 | src/main/java/com/pwootage/riscwm/CPU/RiscVInstruction.kt:18 | `funct7` is bits 31..25 |
| Instruction.ImmI | src/main/java/com/pwootage/riscwm/CPU/RiscVInstruction.kt:22 | the I-immediate lies in [-2048, 2047] and is negative exactly when bit 31 is set |
| Instruction.ImmS | src/main/java/com/pwootage/riscwm/CPU/RiscVInstruction.kt:23 | the S-immediate lies in [-2048, 2047] and is negative exactly when bit 31 is set |
| Instruction.ImmB | src/main/java/com/pwootage/riscwm/CPU/RiscVInstruction.kt:24 | the B-immediate is an even offset in [-4096, 4094] whose sign is bit 31 |
| Instruction.ImmU | src/main/java/com/pwootage/riscwm/CPU/RiscVInstruction.kt:25 | the U-immediate keeps bits 31..12 in place and clears the low 12 bits |
| Instruction.ImmJ | src/main/java/com/pwootage/riscwm/CPU/RiscVInstruction.kt:26 | the J-immediate is an even offset in [-2^20, 2^20-2] whose sign is bit 31 |
| Instruction.Funct5 | src/main/java/com/pwootage/riscwm/CPU/RiscVInstruction.kt:29 | `funct5` is bits 31..27 |
| Instruction.Fmt | src/main/java/com/pwootage/riscwm/CPU/RiscVInstruction.kt:30 | `fmt` is bits 26..25 |
| Instruction.Rm | src/main/java/com/pwootage/riscwm/CPU/RiscVInstruction.kt:31 | the rounding mode is the `funct3` field |
| Instruction.COpcode | src/main/java/com/pwootage/riscwm/CPU/RiscVInstruction.kt:34 | the compressed quadrant is bits 1..0 |
| Instruction.CRs2 | src/main/java/com/pwootage/riscwm/CPU/RiscVInstruction.kt:35 | compressed `rs2` is bits 6..2 |
| Instruction.CRs1 | src/main/java/com/pwootage/riscwm/CPU/RiscVInstruction.kt:36 | compressed `rs1` is the `rd` field, bits 11..7 |
| Instruction.CFunct4 | src/main/java/com/pwootage/riscwm/CPU/RiscVInstruction.kt:37 | compressed `funct4` is bits 15..12 |
| Instruction.CFunct3 | src/main/java/com/pwootage/riscwm/CPU/RiscVInstruction.kt:38 | compressed `funct3` is bits 15..13 |
| Instruction.CRs1Prime | src/main/java/com/pwootage/riscwm/CPU/RiscVInstruction.kt:39 | `rs1'` is 8 plus bits 9..7, so it names one of x8..x15 |
| Instruction.CRs2Prime | src/main/java/com/pwootage/riscwm/CPU/RiscVInstruction.kt:40 | `rs2'` is 8 plus bits 4..2, so it names one of x8..x15 |
| Instruction.CFunct6 | src/main/java/com/pwootage/riscwm/CPU/RiscVInstruction.kt:41 | compressed `funct6` is bits 15..10 |
| Instruction.CFunct2 | src/main/java/com/pwootage/riscwm/CPU/RiscVInstruction.kt:42 | compressed `funct2` is bits 6..5 |
| Instruction.DecodeEncodeR | src/main/java/com/pwootage/riscwm/CPU/RiscVInstruction.kt:13-18 | encoding then decoding an R-type word gives back every field |
| Instruction.DecodeEncodeI | src/main/java/com/pwootage/riscwm/CPU/RiscVInstruction.kt:22 | encoding then decoding an I-type word gives back the 12-bit signed immediate and the register fields |
| Instruction.DecodeEncodeS | src/main/java/com/pwootage/riscwm/CPU/RiscVInstruction.kt:23 | encoding then decoding an S-type word gives back the split immediate and the register fields |
| Instruction.DecodeEncodeB | src/main/java/com/pwootage/riscwm/CPU/RiscVInstruction.kt:24 | encoding then decoding a B-type word gives back every even 13-bit signed offset |
| Instruction.DecodeEncodeU | src/main/java/com/pwootage/riscwm/CPU/RiscVInstruction.kt:25 | encoding then decoding a U-type word gives back the upper immediate |
| Instruction.DecodeEncodeJ | src/main/java/com/pwootage/riscwm/CPU/RiscVInstruction.kt:26 | encoding then decoding a J-type word gives back every even 21-bit signed offset |
| Instruction.AllOnesImmediates | src/main/java/com/pwootage/riscwm/CPU/RiscVInstruction.kt:22-23 | the all-ones word decodes to -1 as an I-immediate and as an S-immediate |
| Alu.Shamt | src/main/java/com/pwootage/riscwm/CPU/instr/opcodes.kt:496-500 | the shift amount of an immediate shift is below 32 |
| Alu.ShamtIsRs2Field | src/main/java/com/pwootage/riscwm/CPU/instr/opcodes.kt:496-500 | the immediate shift amount, `immed_i and 0b11111`, is the instruction's field at bits 24..20 |
| Alu.ShiftRightAgree | src/main/java/com/pwootage/riscwm/CPU/instr/opcodes.kt:497-501 | `shr` and `ushr` agree on a non-negative operand |
| Alu.OpImmShiftRight | src/main/java/com/pwootage/riscwm/CPU/instr/opcodes.kt:497-501 | SRLI (bit 30 clear) shifts logically, SRAI (bit 30 set) arithmetically, and the two agree on a non-negative operand |
| Alu.OpImmSetLessSigned | src/main/java/com/pwootage/riscwm/CPU/instr/opcodes.kt:491 | SLTI writes 1 exactly when `x[rs1]` is below the immediate in the signed order, and 0 otherwise |
| Alu.OpImmSetLessUnsigned | src/main/java/com/pwootage/riscwm/CPU/instr/opcodes.kt:492 | SLTIU compares unsigned against the sign-extended immediate, so with immediate 1 it writes 1 exactly when `x[rs1]` is zero |
| Alu.ShiftCountMasked | src/main/java/com/pwootage/riscwm/CPU/instr/opcodes.kt:572-573 | register shifts depend only on the low five bits of `x[rs2]` |
| Alu.ReadingRanges | src/main/java/com/pwootage/riscwm/CPU/instr/opcodes.kt:492 | the signed reading of a word lies in [-2^31, 2^31) and the unsigned reading in [0, 2^32) |
| Alu.MulHsuIsSignedUnsigned | src/main/java/com/pwootage/riscwm/CPU/instr/opcodes.kt:533 | MULHSU as written gives the high word of the signed-times-unsigned product: the 64-bit wrap of a negative product does not reach the high word's 32 bits |
| Alu.MulUnsignedReading | src/main/java/com/pwootage/riscwm/CPU/instr/opcodes.kt:530 | MUL's `Int` product gives the same low word as the product of the unsigned readings |
| Alu.MulHighNonNegative | src/main/java/com/pwootage/riscwm/CPU/instr/opcodes.kt:531-532 | MULH and MULHU agree on non-negative operands |
| Alu.DivisionCornerCases | src/main/java/com/pwootage/riscwm/CPU/instr/opcodes.kt:534-565 | division by zero gives -1 for DIV and DIVU and the dividend for REM and REMU; `MIN_VALUE / -1` gives `MIN_VALUE` with remainder 0 |
| Alu.SignedDivision | src/main/java/com/pwootage/riscwm/CPU/instr/opcodes.kt:540-556 | in every other case DIV and REM are a quotient truncated toward zero and a remainder that satisfy `q*b + r == a` and `|r| < |b|`, where `r` has the dividend's sign and `q` fits in 32 bits |
| Alu.UnsignedDivision | src/main/java/com/pwootage/riscwm/CPU/instr/opcodes.kt:547-563 | DIVU and REMU by a non-zero divisor are the quotient and the remainder of the unsigned readings, with `q*b + r == a` and `r < b` |
| Alu.BranchPairs | src/main/java/com/pwootage/riscwm/CPU/instr/opcodes.kt:606-614 | a branch condition is undefined exactly for `funct3` 010 and 011. BNE, BGE and BGEU are the negations of BEQ, BLT and BLTU |
| Alu.SignedLessStrict | src/main/java/com/pwootage/riscwm/CPU/instr/opcodes.kt:609-611 | the signed comparison of BLT and BGE is irreflexive and asymmetric |
| Alu.SignedLessUnsigned | src/main/java/com/pwootage/riscwm/CPU/instr/opcodes.kt:609-612 | on non-negative words the signed and unsigned orders coincide, and each negative word is below each non-negative one in the signed order |
| Alu.AmoDefined | src/main/java/com/pwootage/riscwm/CPU/instr/opcodes.kt:917-928 | an AMO result exists only for the nine function codes the source lists |
| Alu.AmoTotal | src/main/java/com/pwootage/riscwm/CPU/instr/opcodes.kt:187-197 | each of the nine AMO function codes gives a result |
| Alu.AmoSignedMinMax | src/main/java/com/pwootage/riscwm/CPU/instr/opcodes.kt:923-925 | AMOMAX stores one of the two words that is not below either in the signed order, and AMOMIN one that is not above either |
| Alu.AmoUnsignedMaxChoice | src/main/java/com/pwootage/riscwm/CPU/instr/opcodes.kt:924 | AMOMAXU stores one of the two words |
| Alu.AmoUnsignedMaxUpper | src/main/java/com/pwootage/riscwm/CPU/instr/opcodes.kt:924 | neither word exceeds what AMOMAXU stores, in the unsigned order |
| Alu.AmoUnsignedMinChoice | src/main/java/com/pwootage/riscwm/CPU/instr/opcodes.kt:926 | AMOMINU stores one of the two words |
| Alu.AmoUnsignedMinBelowMemory | src/main/java/com/pwootage/riscwm/CPU/instr/opcodes.kt:926 | what AMOMINU stores is at most the memory word, unsigned |
| Alu.AmoUnsignedMinBelowRegister | src/main/java/com/pwootage/riscwm/CPU/instr/opcodes.kt:926 | what AMOMINU stores is at most the register word, unsigned |
| Alu.AmoIdentities | src/main/java/com/pwootage/riscwm/CPU/instr/opcodes.kt:918-922 | AMOSWAP stores the register. AMOADD, AMOOR and AMOXOR with 0, and AMOAND with all ones, leave memory unchanged |
| Csr.Level | src/main/java/com/pwootage/riscwm/CPU/Hart.kt:172 | the privilege level a CSR needs, bits 9..8 of its number, is at most 3 |
| Csr.WritableBelowC00 | src/main/java/com/pwootage/riscwm/CPU/Hart.kt:173 | a CSR is writable exactly when its number is below 0xC00, i.e. bits 11..10 are not both set |
| Csr.LevelRanges | src/main/java/com/pwootage/riscwm/CPU/Hart.kt:172 | the machine ranges 0x300-0x3FF, 0xB00-0xBFF and 0xF00-0xFFF need level 3, the user counters 0xC00-0xCFF level 0, and the supervisor range 0x100-0x1FF level 1 |
| Csr.Unpack | src/main/java/com/pwootage/riscwm/CPU/Hart.kt:211-229 | `writeMachineStatusRaw` gives every status field a value that fits its width |
| Csr.PackUnpack | src/main/java/com/pwootage/riscwm/CPU/Hart.kt:191-229 | writing `mstatus` and reading it back keeps exactly the bits that have a field |
| Csr.PackUnsupportedZero | src/main/java/com/pwootage/riscwm/CPU/Hart.kt:192-200 | SD, XS and FS always read as zero, because they are never written |
| Csr.UnpackPack | src/main/java/com/pwootage/riscwm/CPU/Hart.kt:191-229 | reading `mstatus` and writing the value back changes no field |
| Csr.WithLowHalves | src/main/java/com/pwootage/riscwm/CPU/Hart.kt:162-163 | a write to `mcycle` replaces the counter's low half and keeps its high half |
| Csr.WithHighHalves | src/main/java/com/pwootage/riscwm/CPU/Hart.kt:164-165 | a write to `mcycleh` replaces the counter's high half and keeps its low half |
| Harts.WriteCsrRawValid | src/main/java/com/pwootage/riscwm/CPU/Hart.kt:159-169 | writing any CSR keeps the CSR state well formed |
| Harts.ReadAfterWriteStatus | src/main/java/com/pwootage/riscwm/CPU/Hart.kt:154-166 | `mstatus` reads back the written value masked to the bits that have a field |
| Harts.ReadAfterWriteCycleLow | src/main/java/com/pwootage/riscwm/CPU/Hart.kt:147-163 | a write to `mcycle` or `minstret` shows in `cycle`, and `cycleh` is unchanged |
| Harts.ReadAfterWriteCycleHigh | src/main/java/com/pwootage/riscwm/CPU/Hart.kt:147-165 | a write to `mcycleh` or `minstreth` shows in `cycleh`, and `cycle` is unchanged |
| Harts.ReadAfterWriteRaw | src/main/java/com/pwootage/riscwm/CPU/Hart.kt:155-167 | a CSR kept in the array reads back what was written to it, and no other CSR changes |
| Harts.ConstantCsrs | src/main/java/com/pwootage/riscwm/CPU/Hart.kt:152-153 | `misa`, `mvendorid`, `marchid` and `mimpid` read 0 whatever their slots hold, and `mhartid` reads the hart id |
| Harts.UpdateCsrPrivilege | src/main/java/com/pwootage/riscwm/CPU/Hart.kt:172-177 | `updateCsr` fails for lack of permission exactly when the privilege mode is below the CSR's level, and it then changes nothing |
| Harts.UpdateCsrReadOnly | src/main/java/com/pwootage/riscwm/CPU/Hart.kt:173-185 | a write request to a read-only CSR fails and changes nothing |
| Harts.UpdateCsrPermitted | src/main/java/com/pwootage/riscwm/CPU/Hart.kt:179-187 | when permitted, `updateCsr` returns the old value exactly when asked to read, and stores the write function's value, applied to that old value, exactly when a write was asked for |
| Harts.MachineModeOnlyReadOnlyFails | src/main/java/com/pwootage/riscwm/CPU/CPU.kt:205-222 | with the privilege mode fixed at machine, as in `CPU.kt`, only a write to a read-only CSR is refused |
| Harts.UpdateCsrKeepsCounter | src/main/java/com/pwootage/riscwm/CPU/Hart.kt:159-169 | only a write to `mcycle`, `minstret` or their high halves changes the cycle counter |
| Harts.SetReg | src/main/java/com/pwootage/riscwm/CPU/Hart.kt:117-120 | `setx` drops a write to x0, replaces the register written, and leaves every other register as it was |
| Harts.Hart.constructor | src/main/java/com/pwootage/riscwm/CPU/Hart.kt:11-91 | a reset hart has zero registers and CSRs, pc 0x8000_0000, machine mode and no pending pc update |
| Harts.Hart.SetX | src/main/java/com/pwootage/riscwm/CPU/Hart.kt:117-120 | `setx` on the register array gives exactly the registers of `SetReg` |
| Harts.Hart.SetD | src/main/java/com/pwootage/riscwm/CPU/Hart.kt:136-142 | a floating-point register write replaces that register alone |
| Harts.Hart.WriteCsr | src/main/java/com/pwootage/riscwm/CPU/Hart.kt:159-169 | `writeCSRRaw` on the hart: its new CSR state is `WriteCsrRaw` of the old one, and nothing outside the CSRs changes |
| Harts.Hart.WriteMachineStatus | src/main/java/com/pwootage/riscwm/CPU/Hart.kt:211-229 | `writeMachineStatusRaw` sets every status field from its bits of the value and keeps the counter |
| Harts.Hart.UpdateCsrOn | src/main/java/com/pwootage/riscwm/CPU/Hart.kt:171-188 | `updateCsr` on the hart: its result and its new CSR state are those of `UpdateCsr` |
| Physical.Store8 | src/main/java/com/pwootage/riscwm/memory/MMU.kt:74-78 | a byte store changes that byte of physical memory alone |
| Physical.Halves16 | src/main/java/com/pwootage/riscwm/memory/MMU.kt:80-84 | a 16-bit value is its high byte over its low byte, so the two bytes of a store put it back together |
| Physical.Halves32 | src/main/java/com/pwootage/riscwm/memory/MMU.kt:86-90 | a 32-bit value is its high half over its low half |
| Physical.Store16Bytes | src/main/java/com/pwootage/riscwm/memory/MMU.kt:80-84 | a 16-bit store writes the low byte at the address and the high byte after it (little-endian) |
| Physical.Store16Outside | src/main/java/com/pwootage/riscwm/memory/MMU.kt:80-84 | a 16-bit store leaves every byte outside its two unchanged |
| Physical.LoadStore16 | src/main/java/com/pwootage/riscwm/memory/MMU.kt:56-84 | a 16-bit load after a 16-bit store at the same address returns the value stored |
| Physical.Store32Outside | src/main/java/com/pwootage/riscwm/memory/MMU.kt:86-90 | a 32-bit store leaves every byte outside its four unchanged |
| Physical.Load16Same | src/main/java/com/pwootage/riscwm/memory/MMU.kt:56-60 | two memories that agree on two bytes give the same 16-bit load there |
| Physical.Load32Halves | src/main/java/com/pwootage/riscwm/memory/MMU.kt:62-66 | a 32-bit load is its two 16-bit halves, low half first |
| Physical.LoadStore32 | src/main/java/com/pwootage/riscwm/memory/MMU.kt:62-90 | a 32-bit load after a 32-bit store at the same address returns the value stored |
| Physical.Store64Outside | src/main/java/com/pwootage/riscwm/memory/MMU.kt:92-96 | a 64-bit store leaves every byte outside its eight unchanged |
| Physical.LoadStore64 | src/main/java/com/pwootage/riscwm/memory/MMU.kt:68-96 | a 64-bit load after a 64-bit store at the same address returns the value stored |
| Physical.Load64Halves | src/main/java/com/pwootage/riscwm/memory/MMU.kt:68-72 | a 64-bit load is its two 32-bit words, low word first |
| Physical.Load32Same | src/main/java/com/pwootage/riscwm/memory/MMU.kt:62-66 | two memories that agree on the two halves of a word give the same 32-bit load there |
| Physical.Halves64 | src/main/java/com/pwootage/riscwm/memory/MMU.kt:68-72 | a 64-bit value is the join of its two halves |
| Physical.StoreLittleEndian | src/main/java/com/pwootage/riscwm/memory/MMU.kt:86-90 | the first byte of a 32-bit store is the value's low byte |
| Sv32.Xwr | src/main/java/com/pwootage/riscwm/memory/VirtualMemoryManager.kt:8 | the permission field of an entry is three bits; zero marks a branch |
| Sv32.Ppn0 | src/main/java/com/pwootage/riscwm/memory/VirtualMemoryManager.kt:20 | `ppn0` is a 10-bit field |
| Sv32.Ppn1 | src/main/java/com/pwootage/riscwm/memory/VirtualMemoryManager.kt:21 | `ppn1` is a 12-bit field |
| Sv32.Ppn | src/main/java/com/pwootage/riscwm/memory/VirtualMemoryManager.kt:22 | `ppn` is the 22-bit field made of `ppn1` over `ppn0` |
| Sv32.PageOffset | src/main/java/com/pwootage/riscwm/memory/VirtualMemoryManager.kt:26 | the page offset is the low 12 bits |
| Sv32.Vpn0 | src/main/java/com/pwootage/riscwm/memory/VirtualMemoryManager.kt:27 | `vpn0` is a 10-bit field |
| Sv32.Vpn1 | src/main/java/com/pwootage/riscwm/memory/VirtualMemoryManager.kt:28 | `vpn1` is the top 10 bits of the address |
| Sv32.VirtualAddressParts | src/main/java/com/pwootage/riscwm/memory/VirtualMemoryManager.kt:25-29 | the page offset, `vpn0` and `vpn1` put back together give the address |
| Sv32.PageFault | src/main/java/com/pwootage/riscwm/memory/VirtualMemoryManager.kt:120-139 | a page fault's cause follows the access type (execute: instruction page fault, write: store/AMO page fault, otherwise load page fault), its pc is the hart's and its value the virtual address |
| Sv32.FindLeaf | src/main/java/com/pwootage/riscwm/memory/VirtualMemoryManager.kt:71-98 | the leaf a walk settles on is a valid entry with permission bits, and a level-1 leaf (a superpage) has `ppn0` zero |
| Sv32.WalkAsWritten | src/main/java/com/pwootage/riscwm/memory/VirtualMemoryManager.kt:69-118 | `traversePages` as written: every failure is the page fault of the access type |
| Sv32.Walk | src/main/java/com/pwootage/riscwm/memory/VirtualMemoryManager.kt:69-118 | the corrected walk succeeds exactly when a leaf is found and its permissions allow the access at the privilege mode and `SUM`; every failure is the page fault of the access type |
| Sv32.PermittedBits | src/main/java/com/pwootage/riscwm/memory/VirtualMemoryManager.kt:99-116 | a permitted access has its own R, W or X bit set in the entry; a user access needs the U bit; a supervisor access to a U page needs SUM and is not a fetch |
| Sv32.LeafFrame | src/main/java/com/pwootage/riscwm/memory/VirtualMemoryManager.kt:91-97 | the translated address keeps the page offset and lies in the leaf's frame: the 20-bit ppn for a 4 KiB page, and `ppn1` with the address's own `vpn0` for a superpage |
| Sv32.WalkLeaf | src/main/java/com/pwootage/riscwm/memory/VirtualMemoryManager.kt:99-117 | a walk that finds a permitted leaf translates to the address formed from that leaf |
| Sv32.SuperpageFrame | src/main/java/com/pwootage/riscwm/memory/VirtualMemoryManager.kt:92-98 | a corrected superpage translation keeps the page offset and `vpn0` and takes the top bits from `ppn1` |
| Sv32.PageFrame | src/main/java/com/pwootage/riscwm/memory/VirtualMemoryManager.kt:91 | a 4 KiB page translation keeps the page offset and takes the frame from `ppn` |
| Sv32.SuperpageDropsVpn0 | src/main/java/com/pwootage/riscwm/memory/VirtualMemoryManager.kt:97 | for a superpage the as-written walk maps virtual address 0x1000 to 0 instead of 0x1000 |
| Sv32.MakeEntry | src/main/java/com/pwootage/riscwm/memory/VirtualMemoryManager.kt:31-33 | a cache entry keeps only the page bits of both addresses |
| Sv32.EntryReplays | src/main/java/com/pwootage/riscwm/memory/VirtualMemoryManager.kt:34-65 | the entry made from a translation replays it for the address it was made from |
| Sv32.EntryPage | src/main/java/com/pwootage/riscwm/memory/VirtualMemoryManager.kt:34-44 | an entry matches exactly the addresses of its 4 KiB page |
| Sv32.InitialEntryIdentity | src/main/java/com/pwootage/riscwm/memory/VirtualMemoryManager.kt:51-55 | the initial (0, 0) entry translates every address of page 0 to itself |
| Sv32.Vmm.constructor | src/main/java/com/pwootage/riscwm/memory/VirtualMemoryManager.kt:51-55 | every cache entry starts as (0, 0) |
| Sv32.Vmm.Translate | src/main/java/com/pwootage/riscwm/memory/VirtualMemoryManager.kt:57-67 | a hit answers from the entry for (privilege mode, access type); a miss walks the page table with the corrected walk (`Walk`, a superpage keeps `vpn0`) and, only when the walk succeeds, replaces that entry. No other entry changes |
| Mmus.Granule | src/main/java/com/pwootage/riscwm/memory/MMU.kt:33 | the reservation granule of an address is its 16-byte-aligned base |
| Mmus.SameGranule | src/main/java/com/pwootage/riscwm/memory/MMU.kt:33-41 | two addresses share a granule exactly when they agree above bit 3 |
| Mmus.AfterAccess | src/main/java/com/pwootage/riscwm/memory/MMU.kt:40-42 | an access clears the reservation exactly when it holds the access's granule, and otherwise leaves it |
| Mmus.ClearedReservationMatchesFirstGranule | src/main/java/com/pwootage/riscwm/memory/MMU.kt:18-37 | the cleared reservation 0 is also the granule of addresses 0..15, so an access there still clears it |
| Mmus.ReservationGranule | src/main/java/com/pwootage/riscwm/memory/MMU.kt:32-42 | a reservation set at one address is cleared by an access anywhere in the same 16-byte granule and survives an access in any other granule |
| Mmus.Mmu.constructor | src/main/java/com/pwootage/riscwm/memory/MMU.kt:10-18 | a new MMU has the given physical memory and an empty reservation |
| Mmus.Mmu.Translation | src/main/java/com/pwootage/riscwm/memory/MMU.kt:20-30 | above supervisor mode, or with `satp_mode` 0, the address is its own translation |
| Mmus.Mmu.Access | src/main/java/com/pwootage/riscwm/memory/MMU.kt:44-96 | each access translates first and clears a reservation on its granule only once translation succeeded. Memory is unchanged, and the translation cache changes only as `Vmm.Translate` changes it |
| Mmus.Mmu.SetReservation | src/main/java/com/pwootage/riscwm/memory/MMU.kt:32-34 | `setReservation` reserves the address's granule and changes nothing else |
| Mmus.Mmu.ReservationValid | src/main/java/com/pwootage/riscwm/memory/MMU.kt:36-38 | `reservationValid` is true exactly when the reservation holds the address's granule, and clears it when it does |
| Mmus.Mmu.FetchInstruction | src/main/java/com/pwootage/riscwm/memory/MMU.kt:44-48 | the fetch returns the 32-bit word at the address translated for execution, or its page fault |
| Mmus.Mmu.Read8 | src/main/java/com/pwootage/riscwm/memory/MMU.kt:50-54 | the byte at the address translated for reading, or its page fault; memory unchanged |
| Mmus.Mmu.Read16 | src/main/java/com/pwootage/riscwm/memory/MMU.kt:56-60 | the half-word at the translated address, or its page fault; memory unchanged |
| Mmus.Mmu.Read32 | src/main/java/com/pwootage/riscwm/memory/MMU.kt:62-66 | the word at the translated address, or its page fault. The translation of the same address for writing is not disturbed |
| Mmus.Mmu.Read64 | src/main/java/com/pwootage/riscwm/memory/MMU.kt:68-72 | the double word at the translated address, or its page fault; memory unchanged |
| Mmus.Mmu.Write8 | src/main/java/com/pwootage/riscwm/memory/MMU.kt:74-78 | a translated write of one byte; a page fault is returned and leaves memory as it was |
| Mmus.Mmu.Write16 | src/main/java/com/pwootage/riscwm/memory/MMU.kt:80-84 | a translated little-endian write of two bytes; a page fault is returned and leaves memory as it was |
| Mmus.Mmu.Write32 | src/main/java/com/pwootage/riscwm/memory/MMU.kt:86-90 | a translated little-endian write of four bytes; a page fault is returned and leaves memory as it was |
| Mmus.Mmu.Write64 | src/main/java/com/pwootage/riscwm/memory/MMU.kt:92-96 | a translated little-endian write of eight bytes; a page fault is returned and leaves memory as it was |
| Fp.WideConstantsUnreachable | src/main/java/com/pwootage/riscwm/CPU/instr/opcodes.kt:133-147 | `funct5` is five bits, so the 7-bit constants of FSQRT, the conversions, the moves, FCLASS and the comparisons never match. Only FADD, FSUB, FMUL, FDIV, FMIN/FMAX and the sign injections produce a result |
| Fp.AddIgnoresFirstOperand | src/main/java/com/pwootage/riscwm/CPU/instr/opcodes.kt:818 | an FADD result does not depend on `rs1`: it is `src2 + src2` |
| Fp.OperandOrder | src/main/java/com/pwootage/riscwm/CPU/instr/opcodes.kt:819-850 | the other binary operations take `rs1` as their first operand and `rs2` as their second |
| Fp.OtherFormatsIllegal | src/main/java/com/pwootage/riscwm/CPU/instr/opcodes.kt:906-908 | a format other than single precision is an illegal instruction |
| Fp.NanBoxHalves | src/main/java/com/pwootage/riscwm/CPU/Hart.kt:129-133 | `setf` puts the value under an all-ones high half, so `getf` reads the value back |
| Handlers.OpImm | src/main/java/com/pwootage/riscwm/CPU/instr/opcodes.kt:483-505 | `op_imm`: the registers become `setx` of `rd` with the immediate operation's value, and the instruction continues |
| Handlers.Lui | src/main/java/com/pwootage/riscwm/CPU/instr/opcodes.kt:507-509 | `lui` writes the U-immediate to `rd` |
| Handlers.Auipc | src/main/java/com/pwootage/riscwm/CPU/instr/opcodes.kt:511-514 | `auipc` writes the U-immediate plus this instruction's pc to `rd` |
| Handlers.Op | src/main/java/com/pwootage/riscwm/CPU/instr/opcodes.kt:516-583 | `op`: the hint `slt x0, x1, _` is a breakpoint that changes no register; any other instruction writes the register-register (or M-extension) value to `rd` |
| Handlers.Jal | src/main/java/com/pwootage/riscwm/CPU/instr/opcodes.kt:585-592 | `jal` sets the pc to the pc plus the J-immediate, turns off the pc step, and links the pc plus 4 |
| Handlers.JalrTarget | src/main/java/com/pwootage/riscwm/CPU/instr/opcodes.kt:597 | the `jalr` target is `rs1` plus the I-immediate with bit 0 cleared, and nothing else is changed |
| Handlers.Jalr | src/main/java/com/pwootage/riscwm/CPU/instr/opcodes.kt:594-601 | `jalr` reads `rs1` before linking `rd`, jumps to `JalrTarget` and turns off the pc step |
| Handlers.Branch | src/main/java/com/pwootage/riscwm/CPU/instr/opcodes.kt:603-621 | `b`: an undefined condition is an illegal instruction; a branch not taken changes nothing; a taken branch adds the B-immediate to the pc and turns off the pc step |
| Handlers.MiscMem | src/main/java/com/pwootage/riscwm/CPU/instr/opcodes.kt:648-659 | FENCE and FENCE.I do nothing, and any other `funct3` is illegal |
| Handlers.FpIntRegs | src/main/java/com/pwootage/riscwm/CPU/instr/opcodes.kt:830-854 | only an integer result or a moved word changes the integer registers |
| Handlers.FpFloatRegs | src/main/java/com/pwootage/riscwm/CPU/instr/opcodes.kt:818-852 | an OP-FP action changes at most `d[rd]` of the floating-point registers |
| Handlers.FpActionWritesOneRegister | src/main/java/com/pwootage/riscwm/CPU/instr/opcodes.kt:812-908 | an OP-FP instruction writes one register of one file, and a value headed for `d[rd]` reads back through `getf` |
| Handlers.ApplyFpAction | src/main/java/com/pwootage/riscwm/CPU/Hart.kt:122-130 | `setf` or `setx` of one action: the register files become `FpFloatRegs` and `FpIntRegs` of the old ones |
| Handlers.OpFp | src/main/java/com/pwootage/riscwm/CPU/instr/opcodes.kt:812-908 | `op_fp` performs the action `OpFpAction` selects on the `getf` values of `rs1` and `rs2`; an illegal one changes no register and raises an illegal-instruction trap |
| Compressed.Addi4spnImm | src/main/java/com/pwootage/riscwm/CPU/instr/opcodes.kt:250-258 | the C.ADDI4SPN immediate is a zero-extended multiple of 4 below 1024 |
| Compressed.DoubleOffset | src/main/java/com/pwootage/riscwm/CPU/instr/opcodes.kt:259-273 | the C.FLD and C.FSD offset is a multiple of 8 below 256 |
| Compressed.WordOffset | src/main/java/com/pwootage/riscwm/CPU/instr/opcodes.kt:264-278 | the C.LW and C.SW offset is a multiple of 4 below 128 |
| Compressed.Imm6 | src/main/java/com/pwootage/riscwm/CPU/instr/opcodes.kt:284-309 | the C.ADDI, C.LI and C.ANDI immediate is a signed 6-bit value in [-32, 31] |
| Compressed.JumpOffset | src/main/java/com/pwootage/riscwm/CPU/instr/opcodes.kt:290-304 | the C.J and C.JAL offset is an even signed 12-bit value |
| Compressed.Addi16spImm | src/main/java/com/pwootage/riscwm/CPU/instr/opcodes.kt:312-321 | the C.ADDI16SP immediate is a signed multiple of 16 in [-512, 496] |
| Compressed.LuiImm | src/main/java/com/pwootage/riscwm/CPU/instr/opcodes.kt:322-326 | the C.LUI value is a signed 18-bit value whose low 12 bits are zero |
| Compressed.BranchOffset | src/main/java/com/pwootage/riscwm/CPU/instr/opcodes.kt:386-409 | the C.BEQZ and C.BNEZ offset is an even signed 9-bit value |
| Compressed.ShiftAmount | src/main/java/com/pwootage/riscwm/CPU/instr/opcodes.kt:329-340 | the C.SRLI, C.SRAI and C.SLLI shift amount is the 5-bit field at bits 6..2 |
| Compressed.FldspOffset | src/main/java/com/pwootage/riscwm/CPU/instr/opcodes.kt:420-424 | the C.FLDSP offset is a multiple of 8 below 512 |
| Compressed.LwspOffset | src/main/java/com/pwootage/riscwm/CPU/instr/opcodes.kt:425-432 | the C.LWSP offset is a multiple of 4 below 256 |
| Compressed.FsdspOffset | src/main/java/com/pwootage/riscwm/CPU/instr/opcodes.kt:466-470 | the C.FSDSP offset is a multiple of 8 below 512 |
| Compressed.SwspOffset | src/main/java/com/pwootage/riscwm/CPU/instr/opcodes.kt:471-475 | the C.SWSP offset is a multiple of 4 below 256 |
| Compressed.DecodeEncodeCJ | src/main/java/com/pwootage/riscwm/CPU/instr/opcodes.kt:290-304 | decoding a CJ-format word gives back every even 12-bit signed offset and its `funct3` |
| Compressed.DecodeEncodeCB | src/main/java/com/pwootage/riscwm/CPU/instr/opcodes.kt:386-409 | decoding a CB-format word gives back every even 9-bit signed offset, its register and its `funct3` |
| Compressed.DecodeEncodeCLW | src/main/java/com/pwootage/riscwm/CPU/instr/opcodes.kt:264-278 | decoding a CL/CS-format word gives back its offset, its two registers and its `funct3` |
| Compressed.DecodeEncodeCI | src/main/java/com/pwootage/riscwm/CPU/instr/opcodes.kt:284-309 | decoding a CI-format word gives back its 6-bit signed immediate, its register and its `funct3` |
| MemoryOps.ByteExtensions | src/main/java/com/pwootage/riscwm/CPU/instr/opcodes.kt:628-629 | LBU zero-extends the byte, and LB and LBU both keep it in their low eight bits |
| MemoryOps.SignExtend16Low | src/main/java/com/pwootage/riscwm/CPU/instr/opcodes.kt:630 | sign extension of a half-word keeps it in the low sixteen bits |
| MemoryOps.HalfExtensions | src/main/java/com/pwootage/riscwm/CPU/instr/opcodes.kt:630-631 | LHU zero-extends the half-word, and LH and LHU both keep it in their low sixteen bits |
| MemoryOps.LoadByte | src/main/java/com/pwootage/riscwm/CPU/instr/opcodes.kt:628-629 | the byte loads of a byte in memory: LBU gives it zero-extended and LB has it in the low bits |
| MemoryOps.LoadHalf | src/main/java/com/pwootage/riscwm/CPU/instr/opcodes.kt:630-631 | the half-word loads of a half-word in memory: LHU gives it zero-extended and LH has it in the low bits |
| MemoryOps.LoadAfterStoreWord | src/main/java/com/pwootage/riscwm/CPU/instr/opcodes.kt:627-641 | LW after SW at the same address gives the stored word |
| MemoryOps.LoadAfterStoreByte | src/main/java/com/pwootage/riscwm/CPU/instr/opcodes.kt:628-642 | LBU after SB gives the stored byte zero-extended, and LB has it in the low bits |
| MemoryOps.LoadAfterStoreHalf | src/main/java/com/pwootage/riscwm/CPU/instr/opcodes.kt:630-643 | LHU after SH gives the stored half-word zero-extended, and LH has it in the low bits |
| MemoryOps.StoreLeavesOtherBytes | src/main/java/com/pwootage/riscwm/CPU/instr/opcodes.kt:637-646 | a store of any width leaves every byte outside the stored ones unchanged |
| MemoryOps.ReadValue | src/main/java/com/pwootage/riscwm/CPU/instr/opcodes.kt:626-633 | the read of `load` at the width `funct3` names: the extended value at the translated address, or the page fault |
| MemoryOps.Load | src/main/java/com/pwootage/riscwm/CPU/instr/opcodes.kt:623-635 | `load` reads at `rs1 + imm` even when `rd` is x0. An undefined width is illegal, a page fault leaves the registers, and otherwise `rd` receives the value read |
| MemoryOps.WriteValue | src/main/java/com/pwootage/riscwm/CPU/instr/opcodes.kt:640-645 | the write of `store` at the width `funct3` names, through the MMU; a page fault leaves memory as it was |
| MemoryOps.Store | src/main/java/com/pwootage/riscwm/CPU/instr/opcodes.kt:637-646 | `store` writes the low bits of `rs2` at `rs1 + imm`. An undefined width is illegal, a page fault leaves memory, and no register changes |
| MemoryOps.LoadFp | src/main/java/com/pwootage/riscwm/CPU/instr/opcodes.kt:782-795 | FLW boxes the word it reads as `setf` does, FLD reads all 64 bits, any other width is illegal, and a page fault leaves the registers |
| MemoryOps.StoreFp | src/main/java/com/pwootage/riscwm/CPU/instr/opcodes.kt:797-810 | FSW writes the low half of `d[rs2]`, FSD all 64 bits, any other width is illegal, and a page fault leaves memory |
| MemoryOps.AfterAccessIdempotent | src/main/java/com/pwootage/riscwm/memory/MMU.kt:40-42 | a second access to the address just accessed leaves the reservation as the first did |
| MemoryOps.Amo | src/main/java/com/pwootage/riscwm/CPU/instr/opcodes.kt:910-935 | `amo`: width W only. It reads the word at `rs1`, stores `AmoValue` of it and `rs2`, and writes the old word to `rd`. The read comes first, so an undefined `funct5` raises its trap after the read has cleared the reservation |
| SystemOps.PrivOpOf | src/main/java/com/pwootage/riscwm/CPU/instr/opcodes.kt:109-115 | the corrected classification of the privileged `funct12` follows section 3.2.2 of the RISC-V Privileged ISA: 0x302 alone is MRET and 0x002 alone is URET |
| SystemOps.PrivOpSwapped | src/main/java/com/pwootage/riscwm/CPU/instr/opcodes.kt:112-114 | the as-written constants differ from the corrected ones exactly by swapping MRET and URET |
| SystemOps.MretRunsAsUret | src/main/java/com/pwootage/riscwm/CPU/instr/opcodes.kt:684-703 | the `mret` word 0x3020_0073 takes the source's URET branch: it restores only UIE, skips the privilege check and does not leave machine mode |
| SystemOps.EcallCauses | src/main/java/com/pwootage/riscwm/CPU/instr/opcodes.kt:665-679 | ECALL raises the environment call of the current mode, and fails only in the hypervisor mode, which mode 2 would be |
| SystemOps.MretStatus | src/main/java/com/pwootage/riscwm/CPU/instr/opcodes.kt:686-689 | the status after MRET is well formed |
| SystemOps.SretStatus | src/main/java/com/pwootage/riscwm/CPU/instr/opcodes.kt:694-697 | the status after SRET is well formed |
| SystemOps.UretStatus | src/main/java/com/pwootage/riscwm/CPU/instr/opcodes.kt:701-702 | the status after URET is well formed |
| SystemOps.MretStatusBits | src/main/java/com/pwootage/riscwm/CPU/instr/opcodes.kt:686-689 | read through `mstatus`, MRET sets MIE to the old MPIE, sets MPIE and clears MPP, and changes no other bit |
| SystemOps.SretStatusBits | src/main/java/com/pwootage/riscwm/CPU/instr/opcodes.kt:694-697 | read through `mstatus`, SRET sets SIE to the old SPIE, sets SPIE and clears SPP, and changes no other bit |
| SystemOps.UretStatusBits | src/main/java/com/pwootage/riscwm/CPU/instr/opcodes.kt:701-702 | read through `mstatus`, URET sets UIE to the old UPIE and sets UPIE, and changes no other bit |
| SystemOps.MretTwice | src/main/java/com/pwootage/riscwm/CPU/instr/opcodes.kt:684-691 | a second MRET returns to user mode with machine interrupts enabled |
| SystemOps.Priv | src/main/java/com/pwootage/riscwm/CPU/instr/opcodes.kt:663-706 | dispatching on the corrected `funct12` encoding (`PrivOpOf`, MRET 0x302 and URET 0x002): ECALL raises the environment call of the mode, with the pc and value 0. EBREAK is a breakpoint. MRET and SRET below their own mode are illegal; otherwise they update the status and take the mode from MPP or SPP. URET has no check. An unknown `funct12` is illegal, and nothing but the mode and the status changes |
| SystemOps.CsrField | src/main/java/com/pwootage/riscwm/CPU/instr/opcodes.kt:710 | the CSR number `immed_i and 0xFFF` is below 0x1000 |
| SystemOps.CsrFieldBits | src/main/java/com/pwootage/riscwm/CPU/instr/opcodes.kt:710 | the CSR number is the instruction's top twelve bits, whatever the sign of the immediate |
| SystemOps.CsrRequestOf | src/main/java/com/pwootage/riscwm/CPU/instr/opcodes.kt:707-776 | each CSR instruction's request reads whenever it writes through its old value |
| SystemOps.CsrRequestShapes | src/main/java/com/pwootage/riscwm/CPU/instr/opcodes.kt:707-776 | CSRRW and CSRRWI always write and read only when `rd` is not x0. The set and clear forms always read and write nothing exactly when the `rs1` field is 0 |
| SystemOps.SetBitsEffect | src/main/java/com/pwootage/riscwm/CPU/instr/opcodes.kt:721-756 | CSRRS sets the operand's bits and keeps the others |
| SystemOps.ClearBitsEffect | src/main/java/com/pwootage/riscwm/CPU/instr/opcodes.kt:731-768 | CSRRC clears the operand's bits and keeps the others |
| SystemOps.CsrRequestWrites | src/main/java/com/pwootage/riscwm/CPU/instr/opcodes.kt:707-776 | with a non-zero `rs1` field, CSRRW(I) stores the operand, CSRRS(I) sets its bits and CSRRC(I) keeps the bits of its complement |
| SystemOps.CsrReadOnlyAccess | src/main/java/com/pwootage/riscwm/CPU/instr/opcodes.kt:718-741 | a set or clear form with `rs1` field 0 reads any CSR of its level or below, even a read-only one, and changes nothing |
| SystemOps.ApplyCsrRequest | src/main/java/com/pwootage/riscwm/CPU/instr/opcodes.kt:709-716 | `updateCsr` with the request, then the old value to `rd` when it was read. A permission error ends the instruction with no register written |
| SystemOps.CsrInstr | src/main/java/com/pwootage/riscwm/CPU/instr/opcodes.kt:707-778 | a CSR instruction performs its request on the CSR it names, and `funct3` 4 is illegal |
| CompressedOps.LoadWord | src/main/java/com/pwootage/riscwm/CPU/instr/opcodes.kt:264-268 | C.LW and C.LWSP: the word at the translated address goes to `rd`, and a page fault leaves the registers |
| CompressedOps.LoadDouble | src/main/java/com/pwootage/riscwm/CPU/instr/opcodes.kt:259-263 | C.FLD and C.FLDSP: the double word at the translated address goes to `d[rd]` unboxed, and a page fault leaves the registers |
| CompressedOps.StoreWord | src/main/java/com/pwootage/riscwm/CPU/instr/opcodes.kt:274-278 | C.SW and C.SWSP: the word goes to the translated address, and a page fault leaves memory |
| CompressedOps.StoreDouble | src/main/java/com/pwootage/riscwm/CPU/instr/opcodes.kt:269-273 | C.FSD and C.FSDSP: all 64 bits go to the translated address, and a page fault leaves memory |
| CompressedOps.CAddi4spn | src/main/java/com/pwootage/riscwm/CPU/instr/opcodes.kt:250-258 | C.ADDI4SPN writes `x2 + imm` to `rs2'`, as ADDI would; a zero immediate is illegal |
| CompressedOps.CAddi | src/main/java/com/pwootage/riscwm/CPU/instr/opcodes.kt:284-289 | C.ADDI adds the immediate to `rd` as ADDI would, and is a no-op on x0 |
| CompressedOps.CLi | src/main/java/com/pwootage/riscwm/CPU/instr/opcodes.kt:305-309 | C.LI writes the sign-extended immediate to `rd` |
| CompressedOps.CJal | src/main/java/com/pwootage/riscwm/CPU/instr/opcodes.kt:290-304 | C.JAL jumps by the offset, turns off the pc step and links the pc plus 2 in x1 |
| CompressedOps.CAddi16sp | src/main/java/com/pwootage/riscwm/CPU/instr/opcodes.kt:312-321 | C.ADDI16SP adds the immediate to x2 as ADDI would; a zero immediate is illegal |
| CompressedOps.CLui | src/main/java/com/pwootage/riscwm/CPU/instr/opcodes.kt:322-326 | C.LUI writes the immediate to `rd`; a zero immediate is illegal |
| CompressedOps.CAluExpands | src/main/java/com/pwootage/riscwm/CPU/instr/opcodes.kt:329-372 | each compressed arithmetic instruction computes what its 32-bit expansion computes: SRLI, SRAI and ANDI with the immediate, and SUB, XOR, OR and AND with `rs2'`. Bit 12 set in the register forms is illegal |
| CompressedOps.CAlu | src/main/java/com/pwootage/riscwm/CPU/instr/opcodes.kt:329-372 | the arithmetic group writes its value to `rs1'`; an illegal form changes no register |
| CompressedOps.CJ | src/main/java/com/pwootage/riscwm/CPU/instr/opcodes.kt:373-385 | C.J jumps by the offset and turns off the pc step |
| CompressedOps.BranchTarget | src/main/java/com/pwootage/riscwm/CPU/instr/opcodes.kt:386-409 | C.BEQZ and C.BNEZ have a target exactly when their condition on `rs1'` holds |
| CompressedOps.CBranch | src/main/java/com/pwootage/riscwm/CPU/instr/opcodes.kt:386-409 | a taken C.BEQZ or C.BNEZ moves the pc by the offset and turns off the pc step; otherwise nothing changes |
| CompressedOps.SlliTargetAsWritten | src/main/java/com/pwootage/riscwm/CPU/instr/opcodes.kt:417-418 | the register C.SLLI shifts as written is `c_rs1_prime`, a register number below 32 |
| CompressedOps.SlliTarget | src/main/java/com/pwootage/riscwm/CPU/instr/opcodes.kt:415-419 | the register C.SLLI shifts by the ISA is the five-bit `rd` field |
| CompressedOps.SlliTargetsAgree | src/main/java/com/pwootage/riscwm/CPU/instr/opcodes.kt:417 | the written and the intended register agree exactly for x8..x15 |
| CompressedOps.SlliAsWrittenShiftsWrongRegister | src/main/java/com/pwootage/riscwm/CPU/instr/opcodes.kt:417 | `c.slli x1, 1` (0x0086), as written, doubles x9 and leaves x1 alone |
| CompressedOps.CSlli | src/main/java/com/pwootage/riscwm/CPU/instr/opcodes.kt:415-419 | corrected C.SLLI shifts `rd` left by the shift amount |
| CompressedOps.CJr | src/main/java/com/pwootage/riscwm/CPU/instr/opcodes.kt:437-440 | C.JR jumps to `rs1` with bit 0 kept and turns off the pc step |
| CompressedOps.CMv | src/main/java/com/pwootage/riscwm/CPU/instr/opcodes.kt:441-443 | C.MV copies `rs2` to `rd` |
| CompressedOps.CJalr | src/main/java/com/pwootage/riscwm/CPU/instr/opcodes.kt:452-457 | C.JALR jumps to the old `rs1` and links the pc plus 2 in x1 |
| CompressedOps.CAdd | src/main/java/com/pwootage/riscwm/CPU/instr/opcodes.kt:458-461 | C.ADD adds `rs2` to `rd` as ADD would |
| CompressedOps.CDecodeQuadrant2Group | src/main/java/com/pwootage/riscwm/CPU/instr/opcodes.kt:433-465 | quadrant 2 with `funct3` 100 splits on bit 12 and the two register fields exactly as C.JR, C.MV, C.EBREAK, C.JALR and C.ADD do; every other combination does nothing |
| CompressedOps.CDecodeJump | src/main/java/com/pwootage/riscwm/CPU/instr/opcodes.kt:290-385 | a CJ-format word with `funct3` 001 decodes as C.JAL and one with 101 as C.J |
| CompressedOps.CDecodeQuadrant1Jump | src/main/java/com/pwootage/riscwm/CPU/instr/opcodes.kt:290-385 | quadrant 1 with `funct3` 001 is C.JAL and with 101 is C.J |
| CompressedOps.KindTarget | src/main/java/com/pwootage/riscwm/CPU/instr/opcodes.kt:290-457 | only C.JAL, C.J, C.JR, C.JALR and a taken C.BEQZ or C.BNEZ move the pc, and the four jumps always do |
| Execute.Length | src/main/java/com/pwootage/riscwm/CPU/instr/opcodes.kt:211-243 | an instruction is 2 bytes long unless its low two bits are both set, in which case it is 4 |
| Execute.CEbreakDecoded | src/main/java/com/pwootage/riscwm/CPU/instr/opcodes.kt:446-451 | the compressed decoder selects C.EBREAK for exactly the encoding with bit 12 set and both register fields zero |
| Execute.CompressedJump | src/main/java/com/pwootage/riscwm/CPU/instr/opcodes.kt:290-457 | C.JAL, C.J, C.JR and C.JALR move the pc to their target and turn off the pc step; C.JAL and C.JALR link the pc plus 2 in x1 (`CJumpRegs`), C.J and C.JR write no register, and no floating-point register, CSR or mode changes |
| Execute.CompressedBranch | src/main/java/com/pwootage/riscwm/CPU/instr/opcodes.kt:386-409 | C.BEQZ and C.BNEZ move the pc to their target exactly when taken, and change no register, CSR or mode |
| Execute.CompressedMemory | src/main/java/com/pwootage/riscwm/CPU/instr/opcodes.kt:259-278 | the compressed loads and stores (the stack-based forms are at lines 420-475 of the same file) are the word or double-word step at `CompressedAddress`: `x[rs1']` plus the offset, or the offset plus x2. A load writes `rs2'` or `rd`, a store writes `rs2'` or `rs2` to memory, a page fault leaves registers and memory, and none stops the interpreter |
| Execute.CompressedQuadrant1Arith | src/main/java/com/pwootage/riscwm/CPU/instr/opcodes.kt:284-372 | C.ADDI and C.LI write `rd`, C.ADDI16SP adds to x2, C.LUI writes `rd`, the arithmetic group writes `rs1'`, each as `CQuadrant1Step` says; a zero immediate of C.ADDI16SP or C.LUI and an illegal arithmetic form raise an illegal-instruction trap with the registers unchanged. The floating-point registers, CSRs and mode are kept and nothing stops |
| Execute.CompressedOtherArith | src/main/java/com/pwootage/riscwm/CPU/instr/opcodes.kt:250-461 | C.ADDI4SPN writes `x2 + imm` to `rs2'` (illegal for a zero immediate), corrected C.SLLI shifts `rd`, C.MV copies `rs2` to `rd`, C.ADD adds it, and the encodings that do nothing change no register (`COtherStep`); floating-point registers, CSRs and mode are kept |
| Execute.CompressedData | src/main/java/com/pwootage/riscwm/CPU/instr/opcodes.kt:246-481 | the compressed instructions that leave control alone are `CDataStep`: the memory step of the loads and stores, one integer register for the register operations with memory, CSRs and mode kept, and an illegal encoding raises its trap and changes no register and no memory; none stops the interpreter |
| Execute.ExecCompressed | src/main/java/com/pwootage/riscwm/CPU/instr/opcodes.kt:246-481 | `exec_compressed`, with the corrected C.SLLI (`CompressedOps.CSlli`): its effect on registers, CSRs and memory is `CompressedStep`. A completed instruction moves the pc exactly as `KindTarget` says, a trap leaves the pc, C.EBREAK and nothing else is a breakpoint and it changes nothing, and an illegal encoding changes nothing |
| Execute.BaseRegister | src/main/java/com/pwootage/riscwm/CPU/instr/opcodes.kt:221-224 | `op_imm`, `lui`, `auipc` and `op` write `RegisterValue` (the immediate, U-immediate, pc-relative or register-register value) to `rd` and continue, except that the `slt x0, x1, _` hint, and only it, is a breakpoint that writes nothing; the floating-point registers, CSRs and mode are kept |
| Execute.BaseJump | src/main/java/com/pwootage/riscwm/CPU/instr/opcodes.kt:585-601 | `jal` and `jalr` move the pc to `BaseTarget`, turn off the pc step and link the pc plus 4 in `rd` (`ControlStep`); nothing else changes |
| Execute.BaseControl | src/main/java/com/pwootage/riscwm/CPU/instr/opcodes.kt:225-227 | `jal`, `jalr` and `b`: the pc moves exactly to `BaseTarget` when it has one and otherwise stays; the jumps link `rd`, a branch writes no register, and an undefined branch condition is an illegal-instruction trap (`ControlStep`). Floating-point registers, CSRs and mode are kept |
| Execute.BaseMemory | src/main/java/com/pwootage/riscwm/CPU/instr/opcodes.kt:228-235 | `load`, `store`, `load_fp`, `store_fp` and `amo` are the step of their handler (`MemoryStep`): what each reads or writes, in registers, memory and the reservation, and the traps that leave them; none stops the interpreter |
| Execute.BaseSystem | src/main/java/com/pwootage/riscwm/CPU/instr/opcodes.kt:661-780 | `system` never moves the pc. `funct3` 0 is the privileged step (`PrivStep`: the ECALL cause, MRET/SRET/URET status and mode, EBREAK a breakpoint and only it), any other `funct3` the CSR step (`CsrStep`: the request on the named CSR and the old value to `rd`), and the cycle counter changes only through a counter CSR |
| Execute.ExecBase | src/main/java/com/pwootage/riscwm/CPU/instr/opcodes.kt:220-237 | the handler of the major opcode: its effect on registers, CSRs, mode, memory and reservation is `BaseStep`. A completed instruction moves the pc as `BaseTarget` says. The breakpoints are exactly EBREAK and the `op` hint. Only counter CSR writes change the cycle counter, and an unknown opcode is illegal and changes nothing |
| Execute.BaseData | src/main/java/com/pwootage/riscwm/CPU/instr/opcodes.kt:221-235 | the data opcodes are `DataStep`: a register operation writes `rd` alone, a memory operation is its `MemoryStep`, FENCE and FENCE.I change nothing while any other `misc_mem` is illegal, and OP-FP leaves memory; CSRs and mode are kept, and only the hint `slt x0, x1, _` stops the interpreter |
| Execute.Dispatch | src/main/java/com/pwootage/riscwm/CPU/instr/opcodes.kt:210-244 | the handler `exec` selects: `exec_compressed` for a compressed word, the major opcode's handler otherwise. Its effect is `Step`, the pc moves only to the target of a completed instruction, the breakpoints are exactly EBREAK, C.EBREAK and the `op` hint, and an illegal encoding changes no register and no memory |
| Execute.Exec | src/main/java/com/pwootage/riscwm/CPU/instr/opcodes.kt:210-244 | `exec`, over the corrected C.SLLI, MRET/URET encoding and superpage walk: registers, CSRs, mode, memory and reservation change as `Step` says. A completed instruction leaves the pc at `NextPc`: its target, or the pc plus its length when the pc step is on. A breakpoint has moved the pc past itself. A trap or failure leaves the pc at the instruction. An illegal encoding changes no register and no memory |
| Semantics.OnlyMemoryAccessesTouchMemory | src/main/java/com/pwootage/riscwm/CPU/instr/opcodes.kt:210-244 | of all instructions, only the loads, stores and atomic operations, 32-bit or compressed, reach the MMU: every other step leaves physical memory and the reservation as they were |
| Semantics.MemoryTrapsKeepState | src/main/java/com/pwootage/riscwm/CPU/instr/opcodes.kt:623-646 | a load, store or atomic operation that traps (its width undefined, its translation refused) has changed no register, no CSR, not the mode and no memory; only the reservation may have moved, by the read an atomic operation makes first |
| Semantics.CMemoryTrapsKeepState | src/main/java/com/pwootage/riscwm/CPU/instr/opcodes.kt:259-278 | a compressed load or store that traps has changed no register, no CSR, not the mode and no memory |
| Interpreter.AllSnoc | src/main/java/com/pwootage/riscwm/CPU/Hart.kt:96-107 | a trace extended by one instruction has a property throughout exactly when the trace and the new instruction both have it |
| Interpreter.AllAppend | src/main/java/com/pwootage/riscwm/CPU/CPU.kt:87-103 | a property holds throughout a concatenation of traces exactly when it holds throughout both parts |
| Interpreter.Cycle | src/main/java/com/pwootage/riscwm/CPU/Hart.kt:112-115 | `cycle` fetches the word at the pc and executes it. A failed fetch raises its trap and changes nothing in the hart. Otherwise the cycle stops exactly on a breakpoint and leaves the pc as `Exec` does |
| Interpreter.StepEnded | src/main/java/com/pwootage/riscwm/CPU/Hart.kt:96-107 | one cycle of a run either ends the run (a breakpoint stops it, any other outcome fails it at that cycle) or extends a breakpoint-free trace by one instruction |
| Interpreter.TracedCycle | src/main/java/com/pwootage/riscwm/CPU/Hart.kt:96-107 | one cycle with its executed instruction appended to the trace: a cycle that completes extends a breakpoint-free trace, and one that stops ends the run at that cycle |
| Interpreter.Interpret | src/main/java/com/pwootage/riscwm/CPU/Hart.kt:93-110 | `Hart.interpret`: runs `n` cycles (none when `n` is negative), ending at the first breakpoint or exception. The counter always ends `Counted(n, r)` above `left`, the counter as the run left it: all `n` cycles, or the cycles completed before the stop. `left` is the starting counter unless an instruction of the run wrote the counter itself |
| Interpreter.Slices | src/main/java/com/pwootage/riscwm/CPU/CPU.kt:86-87 | `CPU.interpret` runs `cycles / 16` slices, truncated, so 16 times the slice count is at most the request and the remainder is under 16 |
| Interpreter.RunSlice | src/main/java/com/pwootage/riscwm/CPU/CPU.kt:89-100 | the 16 cycles of one slice stop at the first breakpoint or exception; the slice itself adds nothing to the counter, so a run that writes no counter leaves it |
| Interpreter.CountedSlice | src/main/java/com/pwootage/riscwm/CPU/CPU.kt:89-102 | one slice of `CPU.interpret`, the body of its outer loop: a stop inside the slice adds the cycles of the slice that completed before it, a complete slice adds 16, either to the counter as the slice's instructions left it (`left`), whatever they wrote. `left` is the starting counter unless an instruction wrote it |
| Interpreter.SliceEnded | src/main/java/com/pwootage/riscwm/CPU/CPU.kt:87-103 | a slice after `s` complete ones either leaves 16 more breakpoint-free cycles or ends the whole run in cycle `16 * s + at` |
| Interpreter.NextSlice | src/main/java/com/pwootage/riscwm/CPU/CPU.kt:87-103 | slice `s` of the run, after `16 * s` breakpoint-free cycles: a complete one extends the trace by 16 such cycles and adds 16 to the counter as it was left; one that stopped ends the whole run in its cycle `at` of slice `s` and adds `at` |
| Interpreter.SliceIndex | src/main/java/com/pwootage/riscwm/CPU/CPU.kt:89 | cycle `at` of slice `s` is cycle `16 * s + at` of the run |
| Interpreter.StoppedInSlice | src/main/java/com/pwootage/riscwm/CPU/CPU.kt:93-95 | a breakpoint in a slice, after a breakpoint-free run before it, is the first breakpoint of the whole trace |
| Interpreter.InterpretSlices | src/main/java/com/pwootage/riscwm/CPU/CPU.kt:85-104 | `CPU.interpret` adds 16 to the counter per complete slice. A breakpoint or exception ends the run after adding the completed cycles of its slice. The last add is made whatever the instructions wrote: 16 after a complete last slice, `at % 16` after a stop, on top of the counter before it (`left`). Without counter writes the counter ends 16 per complete slice plus `at % 16` above the start. The trace ends as `Ended` says over `16 * (cycles / 16)` cycles |
| Interpreter.RiscWm.constructor | src/main/java/com/pwootage/riscwm/RiscWM.kt:6-10 | a new machine has a reset CPU and no executed cycles |
| Interpreter.RiscWm.Interpret | src/main/java/com/pwootage/riscwm/RiscWM.kt:12-19 | `interpret` runs `cycles / 16` slices of 16 CPU cycles and adds 16 to `executedCycles` after each. A breakpoint or exception ends the run with the completed slices counted. The CPU's own counter is left alone, and a request below 16 does nothing |
| Buffers.Zeros | src/main/java/com/pwootage/riscwm/memory/devices/RAMMemoryDevice.kt:17-18 | a freshly allocated buffer of `n` bytes holds `n` zeros |
| Buffers.Reverse | src/main/java/com/pwootage/riscwm/memory/devices/RAMMemoryDevice.kt:17-18 | reversing keeps the length and mirrors the positions |
| Buffers.ReverseTwice | src/main/java/com/pwootage/riscwm/memory/devices/RAMMemoryDevice.kt:17-18 | reversing twice gives back the bytes |
| Buffers.InOrderTwice | src/main/java/com/pwootage/riscwm/memory/devices/RAMMemoryDevice.kt:17-18 | arranging the bytes of a value twice in the same byte order gives them back |
| Buffers.Bytes16 | src/main/java/com/pwootage/riscwm/memory/devices/RAMMemoryDevice.kt:47-49 | the two bytes `putShort` lays down, least significant first, compose back to the value |
| Buffers.Bytes32 | src/main/java/com/pwootage/riscwm/memory/devices/RAMMemoryDevice.kt:51-53 | the four bytes `putInt` lays down compose back to the value |
| Buffers.Bytes64 | src/main/java/com/pwootage/riscwm/memory/devices/RAMMemoryDevice.kt:55-57 | the eight bytes `putLong` lays down compose back to the value |
| Buffers.Bytes32Low | src/main/java/com/pwootage/riscwm/memory/devices/RAMMemoryDevice.kt:51-53 | the least significant byte of a 32-bit value comes first |
| Buffers.Le32Bytes | src/main/java/com/pwootage/riscwm/memory/devices/RAMMemoryDevice.kt:35-37 | four bytes are the encoding of the value they compose |
| Buffers.Slice | src/main/java/com/pwootage/riscwm/memory/devices/RAMMemoryDevice.kt:27-41 | an absolute get succeeds exactly when all its bytes lie in the buffer (otherwise `IndexOutOfBoundsException`) and then yields that many bytes |
| Buffers.Put | src/main/java/com/pwootage/riscwm/memory/devices/RAMMemoryDevice.kt:43-57 | an absolute put writes its bytes at the index, keeps the size, and leaves every other byte |
| Buffers.GetPutInt | src/main/java/com/pwootage/riscwm/memory/devices/RAMMemoryDevice.kt:35-37 | an `Int` put at an index reads back through `getInt` in the same order |
| Buffers.GetPutShort | src/main/java/com/pwootage/riscwm/memory/devices/RAMMemoryDevice.kt:31-33 | a `Short` put reads back through `getShort` in the same order |
| Buffers.GetPutLong | src/main/java/com/pwootage/riscwm/memory/devices/RAMMemoryDevice.kt:39-41 | a `Long` put reads back through `getLong` in the same order |
| Buffers.GetPutByte | src/main/java/com/pwootage/riscwm/memory/devices/RAMMemoryDevice.kt:27-29 | a byte put reads back through `get` |
| Buffers.PutOutside | src/main/java/com/pwootage/riscwm/memory/devices/RAMMemoryDevice.kt:43-57 | a put leaves every byte outside its own range, and the size, as they were |
| Buffers.PutIntLowByte | src/main/java/com/pwootage/riscwm/memory/devices/RAMMemoryDevice.kt:17-18 | in a little-endian buffer the first byte of an `Int` put is the value's low byte |
| Buffers.PutIntBigEndianFirstByte | src/main/java/com/pwootage/riscwm/memory/devices/RAMMemoryDevice.kt:21 | in a big-endian buffer it is the high byte: 0x01020304 puts 0x01 first |
| Buffers.OrderMismatch | src/main/java/com/pwootage/riscwm/memory/devices/RAMMemoryDevice.kt:21 | bytes laid down little-endian and read back big-endian come out swapped |
| Buffers.Resized | src/main/java/com/pwootage/riscwm/memory/devices/RAMMemoryDevice.kt:20-25 | the buffer `resize` builds holds the first `min(n, capacity)` old bytes and then zeros |
| Buffers.ResizedKeepsInt | src/main/java/com/pwootage/riscwm/memory/devices/RAMMemoryDevice.kt:20-25 | a resize keeps every value that lay wholly within the kept prefix, read in one order |
| RamDevice.Ram.constructor | src/main/java/com/pwootage/riscwm/memory/devices/RAMMemoryDevice.kt:8-19 | a RAM of `startLength` zero bytes, little-endian, at the given base |
| RamDevice.Ram.Put | src/main/java/com/pwootage/riscwm/memory/devices/RAMMemoryDevice.kt:43-57 | an absolute put succeeds exactly when in bounds, and otherwise leaves the buffer |
| RamDevice.Ram.Write8 | src/main/java/com/pwootage/riscwm/memory/devices/RAMMemoryDevice.kt:43-45 | `write8` puts the byte at `offset - start` when in bounds, and `read8` then gives it back; otherwise nothing changes |
| RamDevice.Ram.Write16 | src/main/java/com/pwootage/riscwm/memory/devices/RAMMemoryDevice.kt:47-49 | `write16` puts the two bytes in the buffer's order when in bounds, and `read16` then gives the value back |
| RamDevice.Ram.Write32 | src/main/java/com/pwootage/riscwm/memory/devices/RAMMemoryDevice.kt:51-53 | `write32` puts the four bytes in the buffer's order when in bounds, and `read32` then gives the value back |
| RamDevice.Ram.Write64 | src/main/java/com/pwootage/riscwm/memory/devices/RAMMemoryDevice.kt:55-57 | `write64` puts the eight bytes in the buffer's order when in bounds, and `read64` then gives the value back |
| RamDevice.Ram.Copy | src/main/java/com/pwootage/riscwm/memory/devices/RAMMemoryDevice.kt:21-23 | the new buffer of `resize` starts with the copied bytes `from..to` of the old one and is zero after them |
| RamDevice.Remaining | src/main/java/com/pwootage/riscwm/memory/devices/RAMMemoryDevice.kt:22-23 | the bytes `newRam.put(ram)` copies after `ram.limit(min(n, capacity))`: from the position, clamped to the limit, up to the limit; all of the kept prefix from position 0, none from a position at or past the limit |
| RamDevice.Ram.ResizeAsWritten | src/main/java/com/pwootage/riscwm/memory/devices/RAMMemoryDevice.kt:20-25 | `resize` as written replaces the buffer by a big-endian one holding the bytes from the old position up to the new limit, then zeros, and leaves the new position after the bytes copied; a size of 2^31 or more is refused; the reported length stays |
| RamDevice.Ram.Resize | src/main/java/com/pwootage/riscwm/memory/devices/RAMMemoryDevice.kt:20-25 | corrected `resize` copies the whole kept prefix from index 0 and also carries the byte order over |
| RamDevice.ResizeSwapsWords | src/main/java/com/pwootage/riscwm/memory/devices/RAMMemoryDevice.kt:21 | after the as-written `resize`, 0x01020304 stored at offset 0 reads back as 0x04030201 |
| RamDevice.ResizeKeepsWords | src/main/java/com/pwootage/riscwm/memory/devices/RAMMemoryDevice.kt:20-25 | with the order kept, every word in the kept part reads back as stored |
| RamDevice.PrefixResized | src/main/java/com/pwootage/riscwm/memory/devices/RAMMemoryDevice.kt:21-23 | copying the first `min(n, size)` bytes into `n` zero bytes is the resize of the whole buffer |
| RamDevice.FirstResizeKeepsBytes | src/main/java/com/pwootage/riscwm/memory/devices/RAMMemoryDevice.kt:22-23 | the first as-written `resize`, from position 0, keeps every byte of the kept prefix |
| RamDevice.ResizeTwiceLosesPrefix | src/main/java/com/pwootage/riscwm/memory/devices/RAMMemoryDevice.kt:22-23 | as written, a four-byte RAM holding 0x01020304 at 0, grown to eight bytes and resized to eight again, holds only zeros |
| RomDevice.FromData | src/main/java/com/pwootage/riscwm/memory/devices/ROMMemoryDevice.kt:16-21 | the ROM built from a JVM array holds exactly the data and reports its size as its length |
| RomDevice.ReadByteAt | src/main/java/com/pwootage/riscwm/memory/devices/ROMMemoryDevice.kt:23-25 | the byte `i` places above the base is the `i`-th data byte |
| RomDevice.ReadWordAt | src/main/java/com/pwootage/riscwm/memory/devices/ROMMemoryDevice.kt:31-33 | the word `i` places above the base is the little-endian composition of the four data bytes there |
| RomDevice.ReadDwordAt | src/main/java/com/pwootage/riscwm/memory/devices/ROMMemoryDevice.kt:35-37 | the double word there is the little-endian composition of the eight data bytes |
| RomDevice.ReadPastEnd | src/main/java/com/pwootage/riscwm/memory/devices/ROMMemoryDevice.kt:23-33 | reads at or past the end of the data are out of bounds |
| RamSizeDevice.StartBelowRam | src/main/java/com/pwootage/riscwm/memory/devices/RAMSizeDevice.kt:8 | the size register sits on a 64 KiB boundary strictly below a RAM at a non-zero base and within 64 KiB of it; for RAM at 0x80000000 it is 0x7FFF0000 |
| RamSizeDevice.ReadsSize | src/main/java/com/pwootage/riscwm/memory/devices/RAMSizeDevice.kt:11-29 | the RAM's length is read at the register's address and 0 everywhere else; 8- and 16-bit reads are truncations and the 64-bit read a sign extension |
| ClintDevice.Present | src/main/java/com/pwootage/riscwm/memory/devices/CLINTDevice.kt:33-37 | a slot of a hart beyond the machine's hart count is dropped; any other slot is kept |
| ClintDevice.MsipFacts | src/main/java/com/pwootage/riscwm/memory/devices/CLINTDevice.kt:30-32 | the `msip` word of hart `h` lies in the `msip` range and its index recovers `h` |
| ClintDevice.SlotMsip | src/main/java/com/pwootage/riscwm/memory/devices/CLINTDevice.kt:30-34 | the word at 0x0200_0000 + 4·h is hart `h`'s `msip` |
| ClintDevice.MtimecmpFacts | src/main/java/com/pwootage/riscwm/memory/devices/CLINTDevice.kt:39-42 | the two words of hart `h`'s `mtimecmp` lie in its range, their index recovers `h`, and they are told apart by `offset % 8` |
| ClintDevice.SlotMtimecmp | src/main/java/com/pwootage/riscwm/memory/devices/CLINTDevice.kt:39-46 | the words at 0x0200_4000 + 8·h and 4 above it are the low and high halves of hart `h`'s `mtimecmp` |
| ClintDevice.SlotAddress | src/main/java/com/pwootage/riscwm/memory/devices/CLINTDevice.kt:28-60 | every slot is named at its own address in the device's layout |
| ClintDevice.DecodeAddress | src/main/java/com/pwootage/riscwm/memory/devices/CLINTDevice.kt:28-60 | every slot of an existing hart, and each word of `mtime`, is reached at its own address |
| ClintDevice.MtimecmpUnreadAsWritten | src/main/java/com/pwootage/riscwm/memory/devices/CLINTDevice.kt:40 | indexing from the device base, no `mtimecmp` word can be read with at most 2048 harts; 0x0200_4000 reads nothing with one hart instead of hart 0's low word |
| ClintDevice.MtimeHighUnreadAsWritten | src/main/java/com/pwootage/riscwm/memory/devices/CLINTDevice.kt:51-57 | as written, the high word of `mtime` at 0x0200_BFFC reads nothing |
| ClintDevice.TimerWritesShadowedAsWritten | src/main/java/com/pwootage/riscwm/memory/devices/CLINTDevice.kt:76 | as written every write is taken as an `msip` write, so with one hart the writes at 0x0200_4000 and 0x0200_BFF8 set nothing |
| ClintDevice.Combine64AsWrittenSmearsHigh | src/main/java/com/pwootage/riscwm/memory/devices/CLINTDevice.kt:63 | as written, a low word with bit 31 set fills `read64`'s high half with ones |
| ClintDevice.Combine64AsWrittenNonNegative | src/main/java/com/pwootage/riscwm/memory/devices/CLINTDevice.kt:63 | as written, `read64` joins the two words correctly when the low word is non-negative |
| ClintDevice.Combine64AsWrittenNegative | src/main/java/com/pwootage/riscwm/memory/devices/CLINTDevice.kt:63 | as written, a negative low word makes `read64`'s high half all ones whatever the high word |
| ClintDevice.SetLowAsWrittenSmearsHigh | src/main/java/com/pwootage/riscwm/memory/devices/CLINTDevice.kt:95-97 | as written, writing a low word with bit 31 set overwrites the high half |
| ClintDevice.SetLow | src/main/java/com/pwootage/riscwm/memory/devices/CLINTDevice.kt:95-97 | a low-word write replaces the low half and keeps the high half |
| ClintDevice.SetHigh | src/main/java/com/pwootage/riscwm/memory/devices/CLINTDevice.kt:91-93 | a high-word write replaces the high half and keeps the low half |
| ClintDevice.SetHalves | src/main/java/com/pwootage/riscwm/memory/devices/CLINTDevice.kt:114-117 | writing the low word and then the high word stores the whole double word |
| ClintDevice.MsipOf | src/main/java/com/pwootage/riscwm/memory/devices/CLINTDevice.kt:80-84 | a write stores 1 in `msip` exactly for a positive `Int`, otherwise 0 |
| ClintDevice.Clint.constructor | src/main/java/com/pwootage/riscwm/memory/devices/CLINTDevice.kt:10-12 | the device over the machine's distinct harts and its clock |
| ClintDevice.Clint.Read64 | src/main/java/com/pwootage/riscwm/memory/devices/CLINTDevice.kt:62-64 | corrected `read64` (zero-extended low word): the low half is the word at `offset` and the high half the word above it |
| ClintDevice.Clint.Read32 | src/main/java/com/pwootage/riscwm/memory/devices/CLINTDevice.kt:28-60 | corrected `read32`: the `msip` of the decoded hart, the low or high word of its `mtimecmp` or of `mtime`, and 0 where no slot of an existing hart is |
| ClintDevice.Clint.Read32AsWritten | src/main/java/com/pwootage/riscwm/memory/devices/CLINTDevice.kt:28-60 | `read32` as written gives 0 wherever its own decoding names no slot of an existing hart |
| ClintDevice.Clint.Read64AsWritten | src/main/java/com/pwootage/riscwm/memory/devices/CLINTDevice.kt:62-64 | `read64` as written: its low half is the word `read32` gives at `offset` |
| ClintDevice.Clint.WriteSlot | src/main/java/com/pwootage/riscwm/memory/devices/CLINTDevice.kt:74-112 | the corrected store of one slot: `msip` takes 1 or 0, a low word replaces only the low half (no sign extension), a high word only the high half; the slot reads back as written and nothing else of its hart changes |
| ClintDevice.Clint.Write32 | src/main/java/com/pwootage/riscwm/memory/devices/CLINTDevice.kt:74-112 | corrected `write32` (`msip` range ending at 0x0200_3FFF, timer compares indexed from 0x0200_4000, the high word of `mtime` at 0x0200_BFFC): the decoded slot takes the word; nothing else changes |
| ClintDevice.Clint.Write64 | src/main/java/com/pwootage/riscwm/memory/devices/CLINTDevice.kt:114-117 | corrected `write64`, over the corrected `write32`: at the low word of a timer compare, or of `mtime`, the whole double word is stored, and when the word above `offset` is an `msip` word it takes the high word's bit 0 |
| ClintDevice.Clint.Write32AsWritten | src/main/java/com/pwootage/riscwm/memory/devices/CLINTDevice.kt:74-112 | `write32` as written: the offset is taken for an `msip` word, which takes 1 or 0 if its hart exists; no timer compare and not the clock ever changes |
| ClintDevice.Clint.Write64AsWritten | src/main/java/com/pwootage/riscwm/memory/devices/CLINTDevice.kt:114-117 | `write64` as written stores no double word: no timer compare and not the clock changes |
| Fifos.WriteByte | src/main/java/com/pwootage/riscwm/memory/devices/BasicFIFO.kt:63-68 | a byte at `start` is appended to the write buffer, one at `start + 2` sets the ready flag to whether it is non-zero, and other offsets change nothing |
| Fifos.Read8Value | src/main/java/com/pwootage/riscwm/memory/devices/BasicFIFO.kt:29-49 | at `start` the next unread byte; at `start + 1` 1 exactly when bytes remain; at `start + 2` 1 exactly when ready |
| Fifos.AfterRead8 | src/main/java/com/pwootage/riscwm/memory/devices/BasicFIFO.kt:32-33 | only a read at `start` with a byte available consumes it; every other read leaves the device |
| Fifos.Flush | src/main/java/com/pwootage/riscwm/memory/devices/BasicFIFO.kt:18-27 | when ready, the buffered bytes are handed over and the buffer emptied and the flag cleared; otherwise nothing and no change |
| Fifos.WriteAllAppends | src/main/java/com/pwootage/riscwm/memory/devices/BasicFIFO.kt:63-65 | a run of data-byte writes appends exactly those bytes, in order |
| Fifos.WriteThenFlush | src/main/java/com/pwootage/riscwm/memory/devices/BasicFIFO.kt:18-27 | the host collects exactly the bytes the guest wrote before raising the flag, and the device is then empty and not ready |
| Fifos.FlushOnce | src/main/java/com/pwootage/riscwm/memory/devices/BasicFIFO.kt:18-27 | a second collection right after one yields nothing |
| Fifos.ReadAllDrains | src/main/java/com/pwootage/riscwm/memory/devices/BasicFIFO.kt:29-36 | reading as many bytes as remain returns them in order and leaves the stream empty |
| Fifos.ReadExhausted | src/main/java/com/pwootage/riscwm/memory/devices/BasicFIFO.kt:32-36 | with no byte available a data read gives 0 and changes nothing |
| Fifos.BasicFifo.constructor | src/main/java/com/pwootage/riscwm/memory/devices/BasicFIFO.kt:7-16 | a new device is not ready, has written nothing and has no read stream |
| Fifos.BasicFifo.WriteBufferIfReady | src/main/java/com/pwootage/riscwm/memory/devices/BasicFIFO.kt:18-27 | returns and leaves the state `Flush` gives |
| Fifos.BasicFifo.Read8 | src/main/java/com/pwootage/riscwm/memory/devices/BasicFIFO.kt:29-49 | returns `Read8Value` and leaves `AfterRead8` |
| Fifos.BasicFifo.Read16 | src/main/java/com/pwootage/riscwm/memory/devices/BasicFIFO.kt:51-53 | the byte of `read8` sign-extended to 16 bits, with the same state change |
| Fifos.BasicFifo.Read32 | src/main/java/com/pwootage/riscwm/memory/devices/BasicFIFO.kt:55-57 | the byte of `read8` sign-extended to 32 bits, with the same state change |
| Fifos.BasicFifo.Read64 | src/main/java/com/pwootage/riscwm/memory/devices/BasicFIFO.kt:59-61 | the byte of `read8` sign-extended to 64 bits, with the same state change |
| Fifos.BasicFifo.Write8 | src/main/java/com/pwootage/riscwm/memory/devices/BasicFIFO.kt:63-68 | the new state is `WriteByte` of the old |
| Fifos.BasicFifo.Write16 | src/main/java/com/pwootage/riscwm/memory/devices/BasicFIFO.kt:70-72 | writes the value's low byte as `write8` |
| Fifos.BasicFifo.Write32 | src/main/java/com/pwootage/riscwm/memory/devices/BasicFIFO.kt:74-76 | writes the value's low byte as `write8` |
| Fifos.BasicFifo.Write64 | src/main/java/com/pwootage/riscwm/memory/devices/BasicFIFO.kt:78-80 | writes the value's low byte as `write8` |
| TaggedFormat.Encode | src/main/java/com/pwootage/oc/riscv/taggedFormat/TaggedBinaryParser.kt:63-126 | every encoding starts with the id byte of its variant |
| TaggedFormat.IdValues | src/main/java/com/pwootage/oc/riscv/taggedFormat/TaggedBinaryParser.kt:11-20 | the nine variants carry the ids 0x00 to 0x06, 0x08 and 0xFF |
| TaggedFormat.EncodingWidths | src/main/java/com/pwootage/oc/riscv/taggedFormat/TaggedBinaryParser.kt:63-126 | an encoding is the id and a payload of 0, 1, 2, 4, 8 or 16 bytes, or 4 size bytes and the array |
| TaggedFormat.UuidLayout | src/main/java/com/pwootage/oc/riscv/taggedFormat/TaggedBinaryParser.kt:89-109 | an `Int128` is written low half first, then high half, each least significant byte first |
| TaggedFormat.BytesLayout | src/main/java/com/pwootage/oc/riscv/taggedFormat/TaggedBinaryParser.kt:110-116 | a byte array is written as its four size bytes, then its elements |
| TaggedFormat.DecodeBytes | src/main/java/com/pwootage/oc/riscv/taggedFormat/TaggedBinaryParser.kt:177-188 | the `Bytes` case either yields an array of at most 0x1024 bytes, or refuses a length above 0x1024, or refuses a negative length |
| TaggedFormat.DecodePayload | src/main/java/com/pwootage/oc/riscv/taggedFormat/TaggedBinaryParser.kt:130-197 | a payload read never moves backwards or past the end, and a refusal carries the refused length |
| TaggedFormat.Decode | src/main/java/com/pwootage/oc/riscv/taggedFormat/TaggedBinaryParser.kt:128-198 | `readTagged` reads forward within the stream; it consumes nothing only at the end of the stream, where it yields `End`; refusals are a length above 0x1024 or below 0 |
| TaggedFormat.IntRoundTrip | src/main/java/com/pwootage/oc/riscv/taggedFormat/TaggedBinaryParser.kt:140-146 | composing the four bytes written for an `Int` gives it back |
| TaggedFormat.LongRoundTrip | src/main/java/com/pwootage/oc/riscv/taggedFormat/TaggedBinaryParser.kt:147-157 | composing the eight bytes written for a `Long` gives it back |
| TaggedFormat.HalfRoundTrip | src/main/java/com/pwootage/oc/riscv/taggedFormat/TaggedBinaryParser.kt:136-139 | composing the two bytes written for a `Short` gives it back |
| TaggedFormat.ByteRoundTrip | src/main/java/com/pwootage/oc/riscv/taggedFormat/TaggedBinaryParser.kt:132-135 | the byte read back for an `Int8` is the byte written |
| TaggedFormat.SizeRoundTrip | src/main/java/com/pwootage/oc/riscv/taggedFormat/TaggedBinaryParser.kt:177-181 | the four size bytes of a length below 2^31 compose back to it |
| TaggedFormat.DecodeWordEncoding | src/main/java/com/pwootage/oc/riscv/taggedFormat/TaggedBinaryParser.kt:140-146 | an `Int32` or `Value` encoding reads back as itself, five bytes further on |
| TaggedFormat.DecodeLongEncoding | src/main/java/com/pwootage/oc/riscv/taggedFormat/TaggedBinaryParser.kt:147-157 | an `Int64` encoding reads back as itself, nine bytes further on |
| TaggedFormat.UuidTag | src/main/java/com/pwootage/oc/riscv/taggedFormat/TaggedBinaryParser.kt:158-176 | id 0x05 reads the low half and then the high half |
| TaggedFormat.DecodeUuidEncoding | src/main/java/com/pwootage/oc/riscv/taggedFormat/TaggedBinaryParser.kt:158-176 | an `Int128` encoding reads back as itself, seventeen bytes further on |
| TaggedFormat.BytesTag | src/main/java/com/pwootage/oc/riscv/taggedFormat/TaggedBinaryParser.kt:177 | id 0x06 selects the byte-array case |
| TaggedFormat.DecodeBytesEncoding | src/main/java/com/pwootage/oc/riscv/taggedFormat/TaggedBinaryParser.kt:177-188 | a byte-array encoding of at most 0x1024 bytes reads back as itself, just past its elements |
| TaggedFormat.ShortTags | src/main/java/com/pwootage/oc/riscv/taggedFormat/TaggedBinaryParser.kt:129-139 | ids 0x00 and 0xFF read no payload, 0x01 reads one byte and 0x02 two |
| TaggedFormat.DecodeShortEncoding | src/main/java/com/pwootage/oc/riscv/taggedFormat/TaggedBinaryParser.kt:129-139 | the encodings of `Null`, `Int8`, `Int16` and `End` read back as themselves |
| TaggedFormat.DecodeEncode | src/main/java/com/pwootage/oc/riscv/taggedFormat/TaggedBinaryParser.kt:128-198 | `readTagged` after `writeTaggedBinary`: an encoding laid anywhere in a stream reads back as its value, and the stream is left just after it |
| TaggedFormat.DecodeEncoded | src/main/java/com/pwootage/oc/riscv/taggedFormat/TaggedBinaryParser.kt:128-198 | the same on a stream holding exactly one encoding |
| TaggedFormat.EncodeAllAppend | src/main/java/com/pwootage/oc/riscv/taggedFormat/TaggedBinaryParser.kt:23-27 | the bytes of a concatenated list are the two lists' bytes concatenated |
| TaggedFormat.DecodeEach | src/main/java/com/pwootage/oc/riscv/taggedFormat/TaggedBinaryParser.kt:23-27 | reading a `toBytes` stream value by value returns the list's elements in order, each read starting where the previous ended |
| TaggedFormat.TooBigRefused | src/main/java/com/pwootage/oc/riscv/taggedFormat/TaggedBinaryParser.kt:182-184 | a byte array longer than 0x1024 is refused with its length |
| TaggedFormat.NegativeRefused | src/main/java/com/pwootage/oc/riscv/taggedFormat/TaggedBinaryParser.kt:178-185 | a size field whose top byte has bit 7 set is a negative `Int` and refused as an array size |
| TaggedFormat.TruncatedSize | src/main/java/com/pwootage/oc/riscv/taggedFormat/TaggedBinaryParser.kt:178-181 | a stream that ends inside the size field reads a negative length |
| TaggedFormat.ShortArray | src/main/java/com/pwootage/oc/riscv/taggedFormat/TaggedBinaryParser.kt:185-187 | a byte array longer than the rest of the stream keeps its length, with the missing bytes zero, and the stream is left at its end |
| TaggedFormat.TruncatedPayloads | src/main/java/com/pwootage/oc/riscv/taggedFormat/TaggedBinaryParser.kt:132-146 | reads past the end are -1, whose bits fill the rest of the value |
| TaggedFormat.UnknownTagIsEnd | src/main/java/com/pwootage/oc/riscv/taggedFormat/TaggedBinaryParser.kt:196 | an id naming no variant reads as `End` and consumes only itself; at the end of the stream `End` consumes nothing |
| TaggedFormat.Writer.constructor | src/main/java/com/pwootage/oc/riscv/taggedFormat/TaggedBinaryParser.kt:24 | a new output stream is empty |
| TaggedFormat.Writer.Write | src/main/java/com/pwootage/oc/riscv/taggedFormat/TaggedBinaryParser.kt:64 | `write(b)` appends the byte |
| TaggedFormat.Writer.WriteArray | src/main/java/com/pwootage/oc/riscv/taggedFormat/TaggedBinaryParser.kt:115 | `write(array)` appends the array |
| TaggedFormat.Writer.WriteShort | src/main/java/com/pwootage/oc/riscv/taggedFormat/TaggedBinaryParser.kt:69-72 | appends the two bytes of a `Short`, least significant first |
| TaggedFormat.Writer.WriteInt | src/main/java/com/pwootage/oc/riscv/taggedFormat/TaggedBinaryParser.kt:73-78 | appends the four bytes of an `Int`, least significant first |
| TaggedFormat.Writer.WriteLong | src/main/java/com/pwootage/oc/riscv/taggedFormat/TaggedBinaryParser.kt:79-88 | appends the eight bytes of a `Long`, least significant first |
| TaggedFormat.Writer.WriteSize | src/main/java/com/pwootage/oc/riscv/taggedFormat/TaggedBinaryParser.kt:111-114 | appends the four size bytes of an array |
| TaggedFormat.Writer.WritePayload | src/main/java/com/pwootage/oc/riscv/taggedFormat/TaggedBinaryParser.kt:65-125 | appends the payload of the value |
| TaggedFormat.Writer.WriteTagged | src/main/java/com/pwootage/oc/riscv/taggedFormat/TaggedBinaryParser.kt:63-126 | `writeTaggedBinary` appends exactly the value's encoding |
| TaggedFormat.ToBytes | src/main/java/com/pwootage/oc/riscv/taggedFormat/TaggedBinaryParser.kt:23-27 | `toBytes` is the concatenation of the elements' encodings in order |
| TaggedFormat.Reader.constructor | src/main/java/com/pwootage/oc/riscv/taggedFormat/TaggedBinaryParser.kt:128 | a stream over the data, at its start |
| TaggedFormat.Reader.Read | src/main/java/com/pwootage/oc/riscv/taggedFormat/TaggedBinaryParser.kt:129 | `read()` yields the next byte or end of stream and advances within the data |
| TaggedFormat.Reader.ReadInto | src/main/java/com/pwootage/oc/riscv/taggedFormat/TaggedBinaryParser.kt:186 | `read(array)` copies what is left of the stream, up to the array's length |
| TaggedFormat.Reader.ReadQuad | src/main/java/com/pwootage/oc/riscv/taggedFormat/TaggedBinaryParser.kt:141-144 | four reads yield the next four bytes or ends of stream |
| TaggedFormat.Reader.ReadWord | src/main/java/com/pwootage/oc/riscv/taggedFormat/TaggedBinaryParser.kt:140-146 | the four reads compose to the `Int` there |
| TaggedFormat.Reader.ReadDword | src/main/java/com/pwootage/oc/riscv/taggedFormat/TaggedBinaryParser.kt:147-157 | the eight reads compose to the `Long` there |
| TaggedFormat.Reader.ReadLength | src/main/java/com/pwootage/oc/riscv/taggedFormat/TaggedBinaryParser.kt:178-181 | the four reads of an array length compose to that length |
| TaggedFormat.Reader.ReadBytes | src/main/java/com/pwootage/oc/riscv/taggedFormat/TaggedBinaryParser.kt:177-188 | the byte-array case returns `DecodeBytes` and leaves the stream after the array, or after the size on a refusal |
| TaggedFormat.Reader.ReadShortPayload | src/main/java/com/pwootage/oc/riscv/taggedFormat/TaggedBinaryParser.kt:131-139 | the cases with at most two reads return `ShortPayload` |
| TaggedFormat.Reader.ReadWidePayload | src/main/java/com/pwootage/oc/riscv/taggedFormat/TaggedBinaryParser.kt:140-176 | the wide cases return `WidePayload` |
| TaggedFormat.Reader.ReadPayload | src/main/java/com/pwootage/oc/riscv/taggedFormat/TaggedBinaryParser.kt:130-197 | the payload read returns `DecodePayload` |
| TaggedFormat.Reader.ReadTagged | src/main/java/com/pwootage/oc/riscv/taggedFormat/TaggedBinaryParser.kt:128-198 | `readTagged` returns `Decode` and leaves the stream just after the value, or just after the size field on a refusal |
| TaggedFormat.ShortPayload | src/main/java/com/pwootage/oc/riscv/taggedFormat/TaggedBinaryParser.kt:131-139 | the payloads of ids 0x00, 0x01 and 0x02 always parse and move forward within the stream |
| TaggedFormat.WidePayload | src/main/java/com/pwootage/oc/riscv/taggedFormat/TaggedBinaryParser.kt:140-176 | the payloads of ids 0x03, 0x04, 0x05 and 0x08 always parse and move forward within the stream |
| ValueTables.Increment | src/main/java/com/pwootage/oc/riscv/value/ValueManager.kt:21 | `incrementAndGet` gives the next `Int`, wrapping from the largest to the smallest |
| ValueTables.ValueTable.constructor | src/main/java/com/pwootage/oc/riscv/value/ValueManager.kt:11-14 | a new table has counter 0 and no entries |
| ValueTables.ValueTable.Get | src/main/java/com/pwootage/oc/riscv/value/ValueManager.kt:27-29 | a value is found exactly for a stored handle, and it is the one stored |
| ValueTables.ValueTable.Add | src/main/java/com/pwootage/oc/riscv/value/ValueManager.kt:16-25 | a value with a reverse entry gets that handle unchanged; otherwise the counter advances and the value is stored under the new handle, which is fresh while the counter has not wrapped |
| ValueTables.ValueTable.Destroy | src/main/java/com/pwootage/oc/riscv/value/ValueManager.kt:31-35 | the handle's entry and its value's reverse entry are removed; other handles and the counter are untouched |
| ValueTables.AddTwice | src/main/java/com/pwootage/oc/riscv/value/ValueManager.kt:16-25 | adding one value twice yields two consecutive handles both holding it, since nothing stores into the reverse map |
| ValueTables.HandleLifetime | src/main/java/com/pwootage/oc/riscv/value/ValueManager.kt:16-35 | a handle stays resolvable while others are added and is gone once destroyed |

## Left out

- Floating-point arithmetic (FADD through FCLASS of `op_fp`) has IEEE-754 semantics. A `FloatUnit` function given to the interpreter stands in for it, including `setf`'s canonical-NaN replacement. The model routes operands and results only: NaN boxing, FLW/FSW/FLD/FSD, and FMV between register files.
- The `OP_FP` opcode constant is 0b1000011 (0x43, the major opcode of FMADD) rather than OP-FP's 0b1010011. The model keeps it as written, and also keeps the 7-bit constants compared with the 5-bit `funct5`, which `Fp.WideConstantsUnreachable` shows never match.
- FADD as written computes `src2 + src2`. It is passed to the `FloatUnit` as the source names it, since its float result is not modelled.
- Concurrency: `atomicLock`, `ReentrantLock` and the `AtomicInteger` behind `currentID`. AMOs, the reservation and the counter are sequential read-modify-writes.
- Clock sources (`readTime`, `writeTime`, `System.currentTimeMillis`) are not modelled. Time is a parameter of the interpreter, and the CLINT's clock is a field of the device.
- Trap delivery, delegation and interrupt checks are not implemented in the source either. A trap is an `Outcome` value carrying its cause, pc and trap value.
- The `mepc`/`sepc` jump of MRET and SRET is not performed, which matches the source.
- Exceptions rethrown by `interpret` become the `Failed` result, which carries the slot, the pc and the outcome.
- The instruction traces of the interpreter methods are ghost out-parameters. They exist only to state what was run.
- Interpreter.RiscWm.Interpret: `executedCycles` is an unbounded integer. Kotlin's `Long` wrap-around after 2^63 cycles is not modelled.
- Hart.cycle calls a one-argument `mmu.read32(pc)` that does not exist in the source. The model fetches through `fetchInstruction`, which is an execute access.
- `PRIV_MODES` names level 1 `system` while the rest of the code says `supervisor`. Level 1 is modelled as supervisor.
- Both `Hart` (Hart.kt:85) and `CPU` (CPU.kt:77) declare `val priv_mode = PRIV_MODES.machine`, yet MRET and SRET assign it (opcodes.kt:690, 698), which Kotlin does not compile. Taken as declared, the mode would never leave machine, and the MMU would never walk a page table. The model follows the assignments: `Harts.Hart.priv` is a mutable field. CPU.kt, the older twin of Hart.kt, is modelled by the same class; its 16-cycle slice interpreter is `Interpreter.InterpretSlices`.
- SystemOps.Priv: dispatches on the corrected `PrivOpOf`, so MRET and URET run as their standard encodings. The swapped encodings of the source are `SystemOps.PrivOpAsWritten`, and `SystemOps.MretRunsAsUret` states what the machine as written does with an `mret`. `Execute.ExecBase`, `Execute.Exec` and the interpreters inherit the corrected encoding.
- Sv32.Vmm.Translate: a miss uses the corrected `Sv32.Walk`, in which a superpage keeps `vpn0`. The walk as written is `Sv32.WalkAsWritten`, compared with it by `Sv32.SuperpageDropsVpn0`. `Mmus.Mmu` translation and every load, store and fetch through it inherit the corrected walk.
- CompressedOps.CSlli: shifts the corrected register `rd`. The instruction as written is `CompressedOps.SlliAsWritten`, and `CompressedOps.SlliAsWrittenShiftsWrongRegister` exhibits the difference. `Execute.ExecCompressed` dispatches to the corrected one.
- ClintDevice.Clint.WriteSlot: stores with the corrected `SetLow`, which does not sign-extend. The as-written `write32` never reaches a low-word store (`ClintDevice.Clint.Write32AsWritten`); `ClintDevice.SetLowAsWritten` is the sign-extending store it would make once its `msip` range were corrected.
- ClintDevice.Clint.Write64: states the corrected `write64`, over the corrected decoding. As written, `write64` stores no timer value at all, which `ClintDevice.Clint.Write64AsWritten` states.
- ClintDevice.Clint.Write64: in the `msip` region only the high word's `msip` is stated; the low word's `msip` store is made by the first `write32` but not restated, because relating the two hart indices costs more than the proof budget allows.
- Interpreter.LongOf: its agreement with the 64-bit two's-complement reading of an integer (`i mod 2^64`, as a signed `Long`) is stated in its comment, not proved: relating 64-bit bit-vector and integer arithmetic is beyond the proof budget.
- Semantics.MemoryTrapsKeepState: is stated for the memory step and `Semantics.CMemoryTrapsKeepState` for the compressed one; the other traps (illegal encodings, CSR permission errors, ECALL) keep the state through the contracts of `Execute.Exec` and the step relations, not through one lemma over `Semantics.Step`.
- ClintDevice.Clint.Read64: states the corrected `read64`. The as-written one is `ClintDevice.Clint.Read64AsWritten`, over `ClintDevice.Clint.Read32AsWritten`.
- Interpreter.RunSlice: states the counter only for a slice whose instructions write no counter. The slice adds nothing to the counter itself; what a counter-writing instruction stores is stated per instruction by `SystemOps.CsrInstr`.
- PhysicalMemorySpace.kt and MemoryDevice.kt are not part of this model. Physical memory is one flat little-endian byte map over the whole 32-bit space, so device routing is not modelled.
- ROM and RAM-size writes do nothing in the source and are not modelled as methods.
- The CLINT's 8- and 16-bit accesses read 0 and write nothing in the source. They are not modelled as members.
- `BasicFIFO.setReadBuffer` is called but never defined. The read stream is the `readBuffer` field, set directly.
- The `InputStream` and `OutputStream` of the tagged codec are a cursor over a byte sequence and an appended byte sequence.
- `toTaggedBinary` and `toJava` convert JVM and host values, which have no counterpart in the model.
- ValueManager's `load`, `save` and `clear`, and `Value.dispose`, involve persistence, reflection and host objects.
- ValueTables.ValueTable.Add: requires the counter to be a Kotlin `Int`, which `Valid` and the constructor maintain.

## Findings

| source | as written | input that shows it | evidently intended | confidence | as-written member | corrected member |
|---|---|---|---|---|---|---|
| src/main/java/com/pwootage/riscwm/CPU/instr/opcodes.kt:112-114 | `MRET = 0b000000000010` and `URET = 0b001100000010`, so the two `funct12` values are swapped | `mret` (0x3020_0073) runs the URET branch: it restores only UIE, checks nothing and stays in machine mode | MRET is 0x302 and URET 0x002 (section 3.2.2 of the RISC-V Privileged ISA) | not executed | SystemOps.MretRunsAsUret | SystemOps.PrivOpOf |
| src/main/java/com/pwootage/riscwm/memory/VirtualMemoryManager.kt:97 | a superpage leaf composes `ppn0 << 12` with the page offset and drops the address's `vpn0` | root table at 0 whose entry 0 is 0x1F (a user-readable superpage at 0): virtual 0x1000 translates to 0 | a superpage maps `vpn0` through unchanged (section 4.3.2 of the RISC-V Privileged ISA) | not executed | Sv32.SuperpageDropsVpn0 | Sv32.SuperpageFrame |
| src/main/java/com/pwootage/riscwm/CPU/instr/opcodes.kt:417-418 | C.SLLI shifts and writes `rs1'` (x8..x15) instead of the full 5-bit `rd` | `c.slli x1, 1` (0x0086) doubles x9 and leaves x1 | C.SLLI works on `rd` = bits 11..7 (chapter 16 of the RISC-V Unprivileged ISA) | not executed | CompressedOps.SlliAsWrittenShiftsWrongRegister | CompressedOps.SlliTarget |
| src/main/java/com/pwootage/riscwm/memory/devices/RAMMemoryDevice.kt:21 | `resize` allocates the new buffer without setting little-endian order, so it reads big-endian | 0x01020304 written at offset 0, then a resize: `read32(0)` gives 0x04030201 | the resized RAM keeps its little-endian order | not executed | RamDevice.ResizeSwapsWords | RamDevice.ResizeKeepsWords |
| src/main/java/com/pwootage/riscwm/memory/devices/CLINTDevice.kt:40 | `mtimecmp` reads index harts from the device base, `(offset - 0x0200_0000) / 8` | with one hart, `read32(0x0200_4000)` gives 0 instead of hart 0's low `mtimecmp` word | index from 0x0200_4000 (SiFive E31 Core Complex Manual, CLINT memory map) | not executed | ClintDevice.MtimecmpUnreadAsWritten | ClintDevice.DecodeAddress |
| src/main/java/com/pwootage/riscwm/memory/devices/CLINTDevice.kt:51-57 | the `mtime` case matches only 0x0200_BFF8, so its `offset % 8 == 4` branch never runs | `read32(0x0200_BFFC)` gives 0 instead of the high word of `mtime` | the high word is read at 0x0200_BFFC | not executed | ClintDevice.MtimeHighUnreadAsWritten | ClintDevice.DecodeAddress |
| src/main/java/com/pwootage/riscwm/memory/devices/CLINTDevice.kt:76 | the `msip` range of `write32` is 0x0200_0000..0x0200_FFFF and shadows the `mtimecmp` and `mtime` cases | with one hart, writes at 0x0200_4000 and 0x0200_BFF8 set nothing | `msip` ends at 0x0200_3FFF, as in `read32` | not executed | ClintDevice.Clint.Write32AsWritten | ClintDevice.Clint.Write32 |
| src/main/java/com/pwootage/riscwm/memory/devices/CLINTDevice.kt:63 | `read64` ors in `read32(offset).toLong()`, which sign-extends the low word | low word 0x8000_0000 with high word 0 reads 0xFFFF_FFFF_8000_0000 | the low word is zero-extended | not executed | ClintDevice.Combine64AsWrittenSmearsHigh | ClintDevice.Clint.Read64 |
| src/main/java/com/pwootage/riscwm/memory/devices/CLINTDevice.kt:95-97 | a low-word write ors in `value.toLong()`, which sign-extends the word; the branch is reached only once the range at line 76 is corrected, since as written every `write32` goes to `msip` | writing 0x8000_0000 as the low word of a zero `mtimecmp` sets its high half to all ones | only the low half changes | not executed | ClintDevice.SetLowAsWrittenSmearsHigh | ClintDevice.SetLow |
| src/main/java/com/pwootage/riscwm/memory/devices/RAMMemoryDevice.kt:22-23 | `newRam.put(ram)` is a relative put: it copies from the old buffer's position and leaves the new buffer's position after the bytes copied, so the next `resize` starts copying there | a four-byte RAM holding 0x01020304 at 0, resized to eight bytes and then to eight again, holds only zeros | every `resize` copies the kept prefix from index 0 | not executed | RamDevice.ResizeTwiceLosesPrefix | RamDevice.Ram.Resize |
