/** Trap entry against the tables of the RISC-V Privileged Architecture 20211203: cause codes and trap values
    (section 3.1.15 and 3.1.16), delegation (3.1.8), entry points (3.1.7), and the registers by their numbers. */
module TrapTables {
  import opened Base
  import opened Bits
  import opened HartState
  import opened Traps
  import TrapProofs

  /** The entry point: the base in bits 63:2 of tvec, and four bytes a code for interrupts in mode 1. */
  ghost predicate EntryPoint(target: u64, tvec: u64, interrupt: bool, code: nat) {
    var base := 4 * (tvec / 4);
    var offset := if interrupt && tvec % 4 == 1 then 4 * code else 0;
    target == if base + offset < TWO_64 then base + offset else base + offset - TWO_64
  }

  /** mstatus on entry to Supervisor mode: SIE to SPIE, SIE off, SPP says whether the trap came from there. */
  ghost predicate SupervisorStatus(after: u64, before: u64, from: Mode) {
    forall j: nat :: j < 64 ==>
      Bit(after, j) == if j == 1 then false else if j == 5 then Bit(before, 1)
                       else if j == 8 then from == Supervisor else Bit(before, j)
  }

  /** mstatus on entry to Machine mode: MIE to MPIE, MIE off, MPP is the mode the trap came from. */
  ghost predicate MachineStatus(after: u64, before: u64, from: Mode) {
    forall j: nat :: j < 64 ==>
      Bit(after, j) == if j == 3 then false else if j == 7 then Bit(before, 3)
                       else if j == 11 then from != User else if j == 12 then from == Machine else Bit(before, j)
  }

  /** `u` has entered the handler for a cause with this code and trap value. */
  ghost predicate Enters(h: Hart, u: Hart, interrupt: bool, code: nat, tval: u64, pc: u64) {
    var cause := if interrupt then 0x8000_0000_0000_0000 + code else code;
    && u.regs == h.regs && u.reservation == h.reservation
    && if h.mode != Machine && Bit(h.csrs[if interrupt then 0x303 else 0x302], code) then
         && u.mode == Supervisor
         && u.csrs[0x141] == pc && u.csrs[0x142] == cause && u.csrs[0x143] == tval
         && SupervisorStatus(u.csrs[0x300], h.csrs[0x300], h.mode)
         && EntryPoint(u.pc, h.csrs[0x105], interrupt, code)
         && forall k :: 0 <= k < 4096 && k !in {0x141, 0x142, 0x143, 0x300} ==> u.csrs[k] == h.csrs[k]
       else
         && u.mode == Machine
         && u.csrs[0x341] == pc && u.csrs[0x342] == cause && u.csrs[0x343] == tval
         && MachineStatus(u.csrs[0x300], h.csrs[0x300], h.mode)
         && EntryPoint(u.pc, h.csrs[0x305], interrupt, code)
         && forall k :: 0 <= k < 4096 && k !in {0x341, 0x342, 0x343, 0x300} ==> u.csrs[k] == h.csrs[k]
  }

  lemma VectorIsEntry(tvec: u64, interrupt: bool, code: nat)
    requires code < 64
    ensures EntryPoint(TrapVector(tvec, interrupt, code), tvec, interrupt, code)
  {
  }

  lemma StatusOnEntry(m: u64, from: Mode)
    ensures SupervisorStatus(StatusEnterS(m, from), m, from) && MachineStatus(StatusEnterM(m, from), m, from)
  {
    hide Bit, StatusEnterS, StatusEnterM;
    forall j: nat | j < 64
      ensures Bit(StatusEnterS(m, from), j) == if j == 1 then false else if j == 5 then Bit(m, 1)
                                               else if j == 8 then from == Supervisor else Bit(m, j)
      ensures Bit(StatusEnterM(m, from), j) == if j == 3 then false else if j == 7 then Bit(m, 3)
                                               else if j == 11 then from != User
                                               else if j == 12 then from == Machine else Bit(m, j)
    {
      TrapProofs.EnterSBits(m, from, j);
      TrapProofs.EnterMBits(m, from, j);
    }
  }

  lemma EntersWith(h: Hart, t: Trap, interrupt: bool, code: nat, tval: u64, pc: u64)
    requires CauseOf(t) == Architectural(interrupt, code, tval) && code < 64
    ensures Enters(h, HandleTrap(h, t, pc), interrupt, code, tval, pc)
  {
    hide Bit, StatusEnterS, StatusEnterM, TrapVector, EntryPoint, SupervisorStatus, MachineStatus;
    StatusOnEntry(h.csrs[CSR_MSTATUS], h.mode);
    VectorIsEntry(h.csrs[CSR_STVEC], interrupt, code);
    VectorIsEntry(h.csrs[CSR_MTVEC], interrupt, code);
  }

  /** Exceptions of memory accesses: codes 0, 4, 6 for misalignment, 1, 5, 7 for access faults and 12, 13, 15 for
      page faults of fetches, loads and stores; the trap value is the address. */
  lemma AccessTraps(h: Hart, addr: u64, pc: u64)
    ensures Enters(h, HandleTrap(h, InstructionAddressMisaligned(addr), pc), false, 0, addr, pc)
    ensures Enters(h, HandleTrap(h, LoadAddressMisaligned(addr), pc), false, 4, addr, pc)
    ensures Enters(h, HandleTrap(h, StoreAddressMisaligned(addr), pc), false, 6, addr, pc)
    ensures Enters(h, HandleTrap(h, InstructionAccessFault(addr), pc), false, 1, addr, pc)
    ensures Enters(h, HandleTrap(h, LoadAccessFault(addr), pc), false, 5, addr, pc)
    ensures Enters(h, HandleTrap(h, StoreAccessFault(addr), pc), false, 7, addr, pc)
    ensures Enters(h, HandleTrap(h, InstructionPageFault(addr), pc), false, 12, addr, pc)
    ensures Enters(h, HandleTrap(h, LoadPageFault(addr), pc), false, 13, addr, pc)
    ensures Enters(h, HandleTrap(h, StorePageFault(addr), pc), false, 15, addr, pc)
  {
    hide Enters, HandleTrap;
    EntersWith(h, InstructionAddressMisaligned(addr), false, 0, addr, pc);
    EntersWith(h, LoadAddressMisaligned(addr), false, 4, addr, pc);
    EntersWith(h, StoreAddressMisaligned(addr), false, 6, addr, pc);
    EntersWith(h, InstructionAccessFault(addr), false, 1, addr, pc);
    EntersWith(h, LoadAccessFault(addr), false, 5, addr, pc);
    EntersWith(h, StoreAccessFault(addr), false, 7, addr, pc);
    EntersWith(h, InstructionPageFault(addr), false, 12, addr, pc);
    EntersWith(h, LoadPageFault(addr), false, 13, addr, pc);
    EntersWith(h, StorePageFault(addr), false, 15, addr, pc);
  }

  /** The other exceptions: illegal instruction with its bits, breakpoint, and environment calls, whose code is 8
      plus the privilege level of the caller. */
  lemma InstructionTraps(h: Hart, bits: u64, pc: u64)
    ensures Enters(h, HandleTrap(h, IllegalInstruction(bits), pc), false, 2, bits, pc)
    ensures Enters(h, HandleTrap(h, Breakpoint, pc), false, 3, 0, pc)
    ensures Enters(h, HandleTrap(h, EnvironmentCallFromU, pc), false, 8 + 0, 0, pc)
    ensures Enters(h, HandleTrap(h, EnvironmentCallFromS, pc), false, 8 + 1, 0, pc)
    ensures Enters(h, HandleTrap(h, EnvironmentCallFromM, pc), false, 8 + 3, 0, pc)
  {
    hide Enters, HandleTrap;
    EntersWith(h, IllegalInstruction(bits), false, 2, bits, pc);
    EntersWith(h, Breakpoint, false, 3, 0, pc);
    EntersWith(h, EnvironmentCallFromU, false, 8, 0, pc);
    EntersWith(h, EnvironmentCallFromS, false, 9, 0, pc);
    EntersWith(h, EnvironmentCallFromM, false, 11, 0, pc);
  }

  /** Interrupts: software 1 and 3, timer 5 and 7, external 9 and 11. */
  lemma InterruptTraps(h: Hart, pc: u64)
    ensures Enters(h, HandleTrap(h, SupervisorSoftwareInterrupt, pc), true, 1, 0, pc)
    ensures Enters(h, HandleTrap(h, MachineSoftwareInterrupt, pc), true, 3, 0, pc)
    ensures Enters(h, HandleTrap(h, SupervisorTimerInterrupt, pc), true, 5, 0, pc)
    ensures Enters(h, HandleTrap(h, MachineTimerInterrupt, pc), true, 7, 0, pc)
    ensures Enters(h, HandleTrap(h, SupervisorExternalInterrupt, pc), true, 9, 0, pc)
    ensures Enters(h, HandleTrap(h, MachineExternalInterrupt, pc), true, 11, 0, pc)
  {
    hide Enters, HandleTrap;
    EntersWith(h, SupervisorSoftwareInterrupt, true, 1, 0, pc);
    EntersWith(h, MachineSoftwareInterrupt, true, 3, 0, pc);
    EntersWith(h, SupervisorTimerInterrupt, true, 5, 0, pc);
    EntersWith(h, MachineTimerInterrupt, true, 7, 0, pc);
    EntersWith(h, SupervisorExternalInterrupt, true, 9, 0, pc);
    EntersWith(h, MachineExternalInterrupt, true, 11, 0, pc);
  }

  /** Traps meant for the host alone leave the hart as it is. */
  lemma HostTraps(h: Hart, code: u64, message: string, pc: u64)
    ensures HandleTrap(h, Trap.Wfi, pc) == h && HandleTrap(h, RequestedTrap(code), pc) == h
    ensures HandleTrap(h, Fatal(message), pc) == h
  {
    hide EnterSupervisor, EnterMachine, Bit;
  }

  /** The returns, by register numbers and bits: MRET takes the mode from MPP (the reserved value 2 counting as
      Machine), SRET from SPP; the enables come back, and the pc is that of mepc or sepc. */
  lemma Returns(h: Hart, j: nat)
    requires j < 64
    ensures h.mode == Machine ==>
              var u, m := Mret(h), h.csrs[0x300];
              && u.pc == h.csrs[0x341] && u.regs == h.regs && u.reservation == h.reservation
              && u.mode == (if Bit(m, 12) then Machine else if Bit(m, 11) then Supervisor else User)
              && Bit(u.csrs[0x300], j) == (if j == 3 then Bit(m, 7) else if j == 7 then true
                                           else if j == 11 || j == 12 then false else Bit(m, j))
              && forall k :: 0 <= k < 4096 && k != 0x300 ==> u.csrs[k] == h.csrs[k]
    ensures h.mode == Supervisor ==>
              var u, m := Sret(h), h.csrs[0x300];
              && u.pc == h.csrs[0x141] && u.regs == h.regs && u.reservation == h.reservation
              && u.mode == (if Bit(m, 8) then Supervisor else User)
              && Bit(u.csrs[0x300], j) == (if j == 1 then Bit(m, 5) else if j == 5 then true
                                           else if j == 8 then false else Bit(m, j))
              && forall k :: 0 <= k < 4096 && k != 0x300 ==> u.csrs[k] == h.csrs[k]
  {
    hide Bit, StatusMret, StatusSret;
    TrapProofs.MretBits(h.csrs[CSR_MSTATUS], j);
    TrapProofs.SretBits(h.csrs[CSR_MSTATUS], j);
  }
}
