/** Architectural state of a hart and its control and status registers. */
module HartState {
  import opened Base
  import opened Bits
  import opened Decoder

  type Regs = r: seq<u64> | |r| == 32 witness seq(32, _ => 0)

  type CsrView = c: seq<u64> | |c| == 4096 witness seq(4096, _ => 0)

  type CsrAddr = a: int | 0 <= a < 4096

  datatype Hart = Hart(regs: Regs, pc: u64, reservation: Option<u64>, csrs: CsrView, mode: Mode)

  const CSR_SSTATUS: CsrAddr := 0x100
  const CSR_SIE: CsrAddr := 0x104
  const CSR_STVEC: CsrAddr := 0x105
  const CSR_SEPC: CsrAddr := 0x141
  const CSR_SCAUSE: CsrAddr := 0x142
  const CSR_STVAL: CsrAddr := 0x143
  const CSR_SIP: CsrAddr := 0x144
  const CSR_SATP: CsrAddr := 0x180
  const CSR_MSTATUS: CsrAddr := 0x300
  const CSR_MEDELEG: CsrAddr := 0x302
  const CSR_MIDELEG: CsrAddr := 0x303
  const CSR_MIE: CsrAddr := 0x304
  const CSR_MTVEC: CsrAddr := 0x305
  const CSR_MEPC: CsrAddr := 0x341
  const CSR_MCAUSE: CsrAddr := 0x342
  const CSR_MTVAL: CsrAddr := 0x343
  const CSR_MIP: CsrAddr := 0x344
  const CSR_TIME: CsrAddr := 0xC01

  /** SIE, SPIE, SPP, FS, SUM and MXR. */
  const SSTATUS_MASK: u64 := 0xC6122

  /** SSI, STI and SEI. */
  const S_INTERRUPTS: u64 := 0x222

  /** Only SSIP can be written through sip. */
  const SIP_WRITABLE: u64 := 0x2

  predicate Allowed(addr: CsrAddr, mode: Mode) {
    mode.PrivilegeLevel() >= addr / 0x100 % 4
  }

  predicate ReadOnly(addr: CsrAddr) {
    addr / 0x400 % 4 == 3
  }

  function CsrRead(c: CsrView, addr: CsrAddr, mode: Mode): Result<u64> {
    if !Allowed(addr, mode) then Err(IllegalInstruction(addr))
    else if addr == CSR_SSTATUS then Ok(And(c[CSR_MSTATUS], SSTATUS_MASK))
    else if addr == CSR_SIE then Ok(And(c[CSR_MIE], S_INTERRUPTS))
    else if addr == CSR_SIP then Ok(And(c[CSR_MIP], S_INTERRUPTS))
    else Ok(c[addr])
  }

  /** A write to a read-only register is silently dropped, before the privilege check. */
  function CsrWrite(c: CsrView, addr: CsrAddr, val: u64, mode: Mode): Result<CsrView> {
    if ReadOnly(addr) then Ok(c)
    else if !Allowed(addr, mode) then Err(IllegalInstruction(addr))
    else if addr == CSR_SSTATUS then Ok(c[CSR_MSTATUS := Merge(c[CSR_MSTATUS], val, SSTATUS_MASK)])
    else if addr == CSR_SIE then Ok(c[CSR_MIE := Merge(c[CSR_MIE], val, S_INTERRUPTS)])
    else if addr == CSR_SIP then Ok(c[CSR_MIP := Merge(c[CSR_MIP], val, SIP_WRITABLE)])
    else Ok(c[addr := val])
  }

  function ReadReg(r: Regs, i: Reg): u64 {
    if i == 0 then 0 else r[i]
  }

  function WriteReg(r: Regs, i: Reg, v: u64): Regs {
    if i == 0 then r else r[i := v]
  }

  /** The 64-byte granule a reservation covers. */
  function Granule(addr: u64): u64 {
    addr - addr % 64
  }

  function ClearConflict(res: Option<u64>, addr: u64): Option<u64> {
    if res.Some? && Granule(res.value) == Granule(addr) then None else res
  }
}
