/** Machine words, privilege modes, traps and the result type shared by every component. */
module Base {

  datatype Option<+T> = None | Some(value: T)

  const TWO_64: int := 0x1_0000_0000_0000_0000
  const TWO_32: int := 0x1_0000_0000

  /** A 64-bit machine word.  Shifts right are divisions by powers of two, masks of low bits are
      remainders, and wrapping arithmetic reduces modulo 2^64. */
  type u64 = x: int | 0 <= x < 0x1_0000_0000_0000_0000
  type u32 = x: int | 0 <= x < 0x1_0000_0000
  type u8 = x: int | 0 <= x < 0x100

  /** A host integer cast to 64 bits. */
  function ToU64(x: int): u64 {
    x % TWO_64
  }

  function WrappingAdd(a: u64, b: u64): u64 {
    (a + b) % TWO_64
  }

  function WrappingSub(a: int, b: int): u64 {
    (a - b) % TWO_64
  }

  /** Privilege modes; the level is also the encoding in MPP. */
  datatype Mode = User | Supervisor | Machine {
    function PrivilegeLevel(): nat {
      match this
      case User => 0
      case Supervisor => 1
      case Machine => 3
    }
  }

  /** The reserved encoding 2 is coerced to Machine. */
  function FromMpp(bits: nat): Mode {
    if bits % 4 == 0 then User else if bits % 4 == 1 then Supervisor else Machine
  }

  datatype Trap =
    | InstructionAddressMisaligned(addr: u64)
    | InstructionAccessFault(addr: u64)
    | IllegalInstruction(bits: u64)
    | Breakpoint
    | LoadAddressMisaligned(addr: u64)
    | LoadAccessFault(addr: u64)
    | StoreAddressMisaligned(addr: u64)
    | StoreAccessFault(addr: u64)
    | EnvironmentCallFromU
    | EnvironmentCallFromS
    | EnvironmentCallFromM
    | InstructionPageFault(addr: u64)
    | LoadPageFault(addr: u64)
    | StorePageFault(addr: u64)
    | MachineSoftwareInterrupt
    | MachineTimerInterrupt
    | MachineExternalInterrupt
    | SupervisorSoftwareInterrupt
    | SupervisorTimerInterrupt
    | SupervisorExternalInterrupt
    | Wfi
    | RequestedTrap(code: u64)
    | Fatal(message: string)

  datatype Result<+T> = Ok(value: T) | Err(trap: Trap)

  function Min(a: nat, b: nat): nat {
    if a <= b then a else b
  }

  function Max(a: nat, b: nat): nat {
    if a <= b then b else a
  }
}
