/** Trap entry with delegation, the return instructions, and interrupt selection. */
module Traps {
  import opened Base
  import opened Bits
  import opened HartState

  const SIE_BIT := 1
  const MIE_BIT := 3
  const SPIE_BIT := 5
  const MPIE_BIT := 7
  const SPP_BIT := 8
  const MPP_LOW := 11
  const MPP_HIGH := 12

  /** How a trap appears in the cause and tval registers; host-only traps do not appear at all. */
  datatype Cause = Architectural(interrupt: bool, code: nat, tval: u64) | HostOnly

  function CauseOf(t: Trap): Cause {
    match t
    case InstructionAddressMisaligned(addr) => Architectural(false, 0, addr)
    case InstructionAccessFault(addr) => Architectural(false, 1, addr)
    case IllegalInstruction(bits) => Architectural(false, 2, bits)
    case Breakpoint => Architectural(false, 3, 0)
    case LoadAddressMisaligned(addr) => Architectural(false, 4, addr)
    case LoadAccessFault(addr) => Architectural(false, 5, addr)
    case StoreAddressMisaligned(addr) => Architectural(false, 6, addr)
    case StoreAccessFault(addr) => Architectural(false, 7, addr)
    case EnvironmentCallFromU => Architectural(false, 8, 0)
    case EnvironmentCallFromS => Architectural(false, 9, 0)
    case EnvironmentCallFromM => Architectural(false, 11, 0)
    case InstructionPageFault(addr) => Architectural(false, 12, addr)
    case LoadPageFault(addr) => Architectural(false, 13, addr)
    case StorePageFault(addr) => Architectural(false, 15, addr)
    case SupervisorSoftwareInterrupt => Architectural(true, 1, 0)
    case MachineSoftwareInterrupt => Architectural(true, 3, 0)
    case SupervisorTimerInterrupt => Architectural(true, 5, 0)
    case MachineTimerInterrupt => Architectural(true, 7, 0)
    case SupervisorExternalInterrupt => Architectural(true, 9, 0)
    case MachineExternalInterrupt => Architectural(true, 11, 0)
    case Wfi => HostOnly
    case RequestedTrap(_) => HostOnly
    case Fatal(_) => HostOnly
  }

  /** Does a trap taken in this mode go to the supervisor? */
  predicate Delegated(h: Hart, interrupt: bool, code: nat) {
    h.mode != Machine && Bit(h.csrs[if interrupt then CSR_MIDELEG else CSR_MEDELEG], code)
  }

  function CauseWord(interrupt: bool, code: nat): u64
    requires code < 64
  {
    (if interrupt then 0x8000_0000_0000_0000 else 0) + code
  }

  /** Direct or vectored entry point. */
  function TrapVector(tvec: u64, interrupt: bool, code: nat): u64
    requires code < 64
  {
    var base := tvec - tvec % 4;
    if interrupt && tvec % 4 == 1 then WrappingAdd(base, 4 * code) else base
  }

  /** SPIE <= SIE, SIE <= 0, SPP <= whether the trap came from the supervisor. */
  function StatusEnterS(m: u64, from: Mode): u64 {
    SetBit(SetBit(SetBit(m, SPIE_BIT, Bit(m, SIE_BIT)), SIE_BIT, false), SPP_BIT, from == Supervisor)
  }

  /** MPIE <= MIE, MIE <= 0, MPP <= the interrupted mode. */
  function StatusEnterM(m: u64, from: Mode): u64 {
    SetBit(SetBit(SetBit(SetBit(m, MPIE_BIT, Bit(m, MIE_BIT)), MIE_BIT, false),
           MPP_LOW, from != User), MPP_HIGH, from == Machine)
  }

  function EnterSupervisor(h: Hart, interrupt: bool, code: nat, tval: u64, pc: u64): Hart
    requires code < 64
  {
    h.(csrs := h.csrs[CSR_SEPC := pc][CSR_STVAL := tval][CSR_SCAUSE := CauseWord(interrupt, code)]
                     [CSR_MSTATUS := StatusEnterS(h.csrs[CSR_MSTATUS], h.mode)],
       mode := Supervisor,
       pc := TrapVector(h.csrs[CSR_STVEC], interrupt, code))
  }

  function EnterMachine(h: Hart, interrupt: bool, code: nat, tval: u64, pc: u64): Hart
    requires code < 64
  {
    h.(csrs := h.csrs[CSR_MEPC := pc][CSR_MTVAL := tval][CSR_MCAUSE := CauseWord(interrupt, code)]
                     [CSR_MSTATUS := StatusEnterM(h.csrs[CSR_MSTATUS], h.mode)],
       mode := Machine,
       pc := TrapVector(h.csrs[CSR_MTVEC], interrupt, code))
  }

  /** Trap entry; host-only traps leave the hart untouched. */
  function HandleTrap(h: Hart, t: Trap, pc: u64): Hart {
    match CauseOf(t)
    case HostOnly => h
    case Architectural(interrupt, code, tval) =>
      if Delegated(h, interrupt, code) then EnterSupervisor(h, interrupt, code, tval, pc)
      else EnterMachine(h, interrupt, code, tval, pc)
  }

  /** MIE <= MPIE, MPIE <= 1, MPP <= U. */
  function StatusMret(m: u64): u64 {
    SetBit(SetBit(SetBit(SetBit(m, MIE_BIT, Bit(m, MPIE_BIT)), MPIE_BIT, true), MPP_LOW, false), MPP_HIGH, false)
  }

  /** SIE <= SPIE, SPIE <= 1, SPP <= U. */
  function StatusSret(m: u64): u64 {
    SetBit(SetBit(SetBit(m, SIE_BIT, Bit(m, SPIE_BIT)), SPIE_BIT, true), SPP_BIT, false)
  }

  function MppMode(m: u64): Mode {
    FromMpp((if Bit(m, MPP_LOW) then 1 else 0) + (if Bit(m, MPP_HIGH) then 2 else 0))
  }

  /** MRET, legal only in Machine mode. */
  function Mret(h: Hart): Hart
    requires h.mode == Machine
  {
    var m := h.csrs[CSR_MSTATUS];
    h.(mode := MppMode(m), csrs := h.csrs[CSR_MSTATUS := StatusMret(m)], pc := h.csrs[CSR_MEPC])
  }

  /** SRET, legal only in Supervisor mode. */
  function Sret(h: Hart): Hart
    requires h.mode == Supervisor
  {
    var m := h.csrs[CSR_MSTATUS];
    h.(mode := if Bit(m, SPP_BIT) then Supervisor else User,
       csrs := h.csrs[CSR_MSTATUS := StatusSret(m)], pc := h.csrs[CSR_SEPC])
  }

  // ---- Interrupt selection --------------------------------------------------------------------------

  /** Pending, enabled and not delegated. */
  predicate PendingM(h: Hart, code: nat) {
    Bit(h.csrs[CSR_MIP], code) && Bit(h.csrs[CSR_MIE], code) && !Bit(h.csrs[CSR_MIDELEG], code)
  }

  /** Pending, enabled through sie and delegated. */
  predicate PendingS(h: Hart, code: nat) {
    Bit(h.csrs[CSR_MIP], code) && Bit(And(h.csrs[CSR_MIE], S_INTERRUPTS), code) && Bit(h.csrs[CSR_MIDELEG], code)
  }

  predicate EnabledM(h: Hart) {
    h.mode == Machine ==> Bit(h.csrs[CSR_MSTATUS], MIE_BIT)
  }

  predicate EnabledS(h: Hart) {
    h.mode == User || (h.mode == Supervisor && Bit(h.csrs[CSR_MSTATUS], SIE_BIT))
  }

  function CheckPendingInterrupt(h: Hart): Option<Trap> {
    if EnabledM(h) && PendingM(h, 11) then Some(MachineExternalInterrupt)
    else if EnabledM(h) && PendingM(h, 3) then Some(MachineSoftwareInterrupt)
    else if EnabledM(h) && PendingM(h, 7) then Some(MachineTimerInterrupt)
    else if EnabledS(h) && PendingS(h, 9) then Some(SupervisorExternalInterrupt)
    else if EnabledS(h) && PendingS(h, 1) then Some(SupervisorSoftwareInterrupt)
    else if EnabledS(h) && PendingS(h, 5) then Some(SupervisorTimerInterrupt)
    else None
  }
}
