// IRVE: how an operation of the C++ emulator ends when it does not return normally.
// The C++ code throws: a RISC-V exception carrying its cause and trap value, or an exit
// request from the guest. A failed `assert` on a path the guest can reach is a third way.

module IrveTrap {
  // Exception causes, as written to mcause/scause.
  const INSTRUCTION_ADDRESS_MISALIGNED: bv32 := 0
  const INSTRUCTION_ACCESS_FAULT: bv32 := 1
  const ILLEGAL_INSTRUCTION: bv32 := 2
  const BREAKPOINT: bv32 := 3
  const LOAD_ADDRESS_MISALIGNED: bv32 := 4
  const LOAD_ACCESS_FAULT: bv32 := 5
  const STORE_OR_AMO_ADDRESS_MISALIGNED: bv32 := 6
  const STORE_OR_AMO_ACCESS_FAULT: bv32 := 7
  const UMODE_ECALL: bv32 := 8
  const SMODE_ECALL: bv32 := 9
  const MMODE_ECALL: bv32 := 11
  const INSTRUCTION_PAGE_FAULT: bv32 := 12
  const LOAD_PAGE_FAULT: bv32 := 13
  const STORE_OR_AMO_PAGE_FAULT: bv32 := 15

  // Interrupt causes: the interrupt's bit number with bit 31 set.
  const SUPERVISOR_SOFTWARE_INTERRUPT: bv32 := 0x8000_0001
  const MACHINE_SOFTWARE_INTERRUPT: bv32 := 0x8000_0003
  const SUPERVISOR_TIMER_INTERRUPT: bv32 := 0x8000_0005
  const MACHINE_TIMER_INTERRUPT: bv32 := 0x8000_0007
  const SUPERVISOR_EXTERNAL_INTERRUPT: bv32 := 0x8000_0009
  const MACHINE_EXTERNAL_INTERRUPT: bv32 := 0x8000_000B

  /** What an operation throws instead of returning. */
  datatype Thrown =
    | RvException(cause: bv32, tval: bv32)
    | ExitRequest
    | AssertionFailure

  /** A result, or what was thrown in its place. */
  datatype Outcome<T> = Normal(value: T) | Throw(thrown: Thrown)

  /** `invoke_exception(cause)`: the trap value defaults to 0. */
  function Raise<T>(cause: bv32): Outcome<T>
  {
    Throw(RvException(cause, 0))
  }
}
