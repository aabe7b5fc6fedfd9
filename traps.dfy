/** Traps, privilege modes and the outcome of executing one instruction.
    The emulator signals a trap by throwing `CPU_TRAP(Trap(type, pc, value))`, a breakpoint
    by throwing `CPU_EBREAK`, and a broken internal assumption by throwing
    `IllegalArgumentException`/`IllegalStateException`; here each of these is a value. */
module Traps {
  import opened Words

  /** The trap causes the interpreter raises. */
  datatype TrapType =
    | IllegalInstruction
    | EnvironmentCallFromUser
    | EnvironmentCallFromSupervisor
    | EnvironmentCallFromMachine
    | InstructionPageFault
    | LoadPageFault
    | StoreOrAMOPageFault

  /** A trap: its cause, the pc of the instruction that raised it and the trap value. */
  datatype Trap = Trap(kind: TrapType, pc: Word, value: Word)

  /** The host-level errors the interpreter throws instead of trapping. */
  datatype Failure = NoReadPermission | NoWritePermission | InvalidPrivMode

  /** How one instruction ended: it ran to completion, it raised a trap, it hit a
      breakpoint (`CPU_EBREAK`), or it threw a host-level error. */
  datatype Outcome = Continue | Raised(trap: Trap) | Break | Error(failure: Failure)

  datatype Option<T> = None | Some(value: T)

  /** The result of a memory access through the MMU: a value, or the page fault it raised. */
  datatype Result<T> = Ok(value: T) | Err(trap: Trap)

  // Privilege modes (`PRIV_MODES`).
  const USER: nat := 0
  const SUPERVISOR: nat := 1
  const HYPERVISOR: nat := 2
  const MACHINE: nat := 3

  // Memory access types (`MEMORY_ACCESS_TYPE`); each is also the index of its permission
  // bit in a page-table entry's XWR field.
  const READ: nat := 0
  const WRITE: nat := 1
  const EXECUTE: nat := 2

  /** The illegal-instruction trap raised for `instr` at `pc`: its value is the instruction word. */
  function IllegalTrap(pc: Word, instr: Word): Trap
  {
    Trap(IllegalInstruction, pc, instr)
  }
}
