/** The hart as an object whose fields the step functions update in place. */
module CpuModel {
  import opened Base
  import B = Bits
  import opened Memory
  import M = Mmu
  import D = Decoder
  import opened HartState
  import Micro
  import T = Traps
  import I = Interpreter
  import K = Block
  import E = Engine
  import C = BlockCorrect
  import W = Twins
  import opened BlockCacheModel
  import opened TlbImpl
  import opened CsrModel

  /** How the execution of a block ended. */
  datatype BlockResult = Continue(nextPc: u64) | TrapAt(trap: Trap, faultPc: u64) | Exit(nextPc: u64)

  /** The functional outcome with this state and this end. */
  function OutOf(s: I.State, r: BlockResult): K.Out {
    match r
    case Continue(pc) => K.Continue(s, pc)
    case TrapAt(t, pc) => K.Trapped(s, t, pc)
    case Exit(pc) => K.Exit(s, pc)
  }

  /** How one operation ended: fall through, or the end of the block. */
  datatype OpResult = GoesOn | Ends(result: BlockResult)

  function OpOut(s: I.State, r: OpResult): K.Out {
    match r
    case GoesOn => K.Next(s)
    case Ends(end) => OutOf(s, end)
  }

  /** The functional fetch with this state and this instruction or trap. */
  function FetchOf(s: I.State, insn: Result<u32>, len: nat): I.Fetch {
    match insn
    case Ok(bits) => I.Fetched(s, bits, len)
    case Err(t) => I.NotFetched(s, t)
  }

  /** Fetching the upper halfword after `low`. */
  function UpperOf(s: I.State, pc: u64, low: D.u16): I.Fetch {
    var high := I.Translate(s, WrappingAdd(pc, 2), M.Instruction);
    if high.res.Err? then I.NotFetched(high.s, high.res.trap)
    else
      var rest := Read(high.s.mem, high.res.value, W16);
      if rest.Err? then I.NotFetched(high.s, I.FetchTrap(rest.trap, pc))
      else I.Fetched(high.s, low + rest.value * 0x1_0000, 4)
  }

  /** Going on from the lower halfword. */
  function FromHalf(s: I.State, pc: u64, half: Result<u64>): I.Fetch
    requires half.Ok? ==> half.value < 0x1_0000
  {
    if half.Err? then I.NotFetched(s, I.FetchTrap(half.trap, pc))
    else if half.value % 4 != 3 then I.Expanded(s, half.value)
    else UpperOf(s, pc, half.value)
  }

  datatype CompileResult = Compiled(block: K.Block) | CompileTrap(trap: Trap)

  function CompiledOf(s: I.State, r: CompileResult): K.Compiled {
    match r
    case Compiled(b) => K.Compiled(s, b)
    case CompileTrap(t) => K.CompileTrap(s, t)
  }

  const CSR_MISA: CsrAddr := 0x301
  const CSR_MHARTID: CsrAddr := 0xF14
  const MISA_RV64IMAC: u64 := 0x4000_0000_0018_1125

  /** The hart out of reset. */
  function ResetHart(entry: u64, hartId: u64): Hart {
    Hart(seq(32, _ => 0), entry, None, seq(4096, _ => 0)[CSR_MISA := MISA_RV64IMAC][CSR_MHARTID := hartId], Machine)
  }

  class Cpu {
    var regs: Regs
    var pc: u64
    var reservation: Option<u64>
    var mode: Mode
    const csrs: CsrFile
    const tlb: Tlb
    const bus: Bus
    var decodeCache: E.DecodeCache
    var useBlocks: bool
    const blockCache: BlockCache

    ghost predicate Valid() {
      csrs.Valid() && tlb.Valid()
    }

    ghost function State(): I.State
      reads this, csrs.storage, tlb.entries, bus
      requires Valid()
    {
      I.State(Hart(regs, pc, reservation, csrs.View(), mode), tlb.View(), bus.mem)
    }

    ghost function View(): E.Engine
      reads this, csrs.storage, tlb.entries, bus, blockCache
      requires Valid()
    {
      E.Engine(State(), Plain(blockCache.blocks), blockCache.generation, decodeCache)
    }

    /** A hart out of reset, with empty caches. */
    constructor (entry: u64, hartId: u64, b: Bus)
      ensures Valid() && fresh(blockCache) && fresh(csrs.storage) && fresh(tlb.entries) && bus == b
              && b.mem == old(b.mem)
      ensures View() == E.Engine(I.State(ResetHart(entry, hartId), M.EmptyTlb(), b.mem), map[], 0, map[])
    {
      regs, pc, reservation, mode := seq(32, _ => 0), entry, None, Machine;
      csrs := new CsrFile();
      tlb := new Tlb();
      bus, decodeCache, useBlocks := b, map[], true;
      blockCache := new BlockCache();
      new;
      csrs.storage[CSR_MISA] := MISA_RV64IMAC;
      csrs.storage[CSR_MHARTID] := hartId;
    }

    // ---- Registers, translation and traps ------------------------------------------------------------------

    method ReadRegister(r: D.Reg) returns (v: u64)
      ensures v == ReadReg(regs, r)
    {
      v := if r == 0 then 0 else regs[r];
    }

    method WriteRegister(r: D.Reg, v: u64)
      requires Valid()
      modifies this`regs
      ensures State() == I.SetReg(old(State()), r, v)
    {
      if r != 0 {
        regs := regs[r := v];
      }
    }

    method Translate(addr: u64, access: M.Access) returns (r: Result<u64>)
      requires Valid()
      modifies tlb.entries, bus
      ensures I.Translated(State(), r) == I.Translate(old(State()), addr, access)
    {
      hide M.Translate;
      r := TranslateAddr(bus, tlb, M.Context(mode, csrs.storage[CSR_SATP], csrs.storage[CSR_MSTATUS]), addr, access);
    }

    method EnterSupervisor(interrupt: bool, code: nat, tval: u64, faultPc: u64)
      requires Valid() && code < 64
      modifies this`mode, this`pc, csrs.storage
      ensures State() == old(State()).(hart := T.EnterSupervisor(old(State()).hart, interrupt, code, tval, faultPc))
    {
      hide B.Bit, B.SetBit, WrappingAdd, T.TrapVector, T.CauseWord;
      ghost var was := csrs.View();
      csrs.storage[CSR_SEPC] := faultPc;
      csrs.storage[CSR_STVAL] := tval;
      csrs.storage[CSR_SCAUSE] := T.CauseWord(interrupt, code);
      var mstatus := csrs.storage[CSR_MSTATUS];
      mstatus := B.SetBit(mstatus, T.SPIE_BIT, B.Bit(mstatus, T.SIE_BIT));
      mstatus := B.SetBit(mstatus, T.SIE_BIT, false);
      mstatus := B.SetBit(mstatus, T.SPP_BIT, mode == Supervisor);
      csrs.storage[CSR_MSTATUS] := mstatus;
      assert csrs.View() == was[CSR_SEPC := faultPc][CSR_STVAL := tval][CSR_SCAUSE := T.CauseWord(interrupt, code)]
                               [CSR_MSTATUS := mstatus];
      mode := Supervisor;
      pc := T.TrapVector(csrs.storage[CSR_STVEC], interrupt, code);
    }

    method EnterMachine(interrupt: bool, code: nat, tval: u64, faultPc: u64)
      requires Valid() && code < 64
      modifies this`mode, this`pc, csrs.storage
      ensures State() == old(State()).(hart := T.EnterMachine(old(State()).hart, interrupt, code, tval, faultPc))
    {
      hide B.Bit, B.SetBit, WrappingAdd, T.TrapVector, T.CauseWord;
      ghost var was := csrs.View();
      csrs.storage[CSR_MEPC] := faultPc;
      csrs.storage[CSR_MTVAL] := tval;
      csrs.storage[CSR_MCAUSE] := T.CauseWord(interrupt, code);
      var mstatus := csrs.storage[CSR_MSTATUS];
      mstatus := B.SetBit(mstatus, T.MPIE_BIT, B.Bit(mstatus, T.MIE_BIT));
      mstatus := B.SetBit(mstatus, T.MIE_BIT, false);
      mstatus := B.SetBit(mstatus, T.MPP_LOW, mode != User);
      mstatus := B.SetBit(mstatus, T.MPP_HIGH, mode == Machine);
      csrs.storage[CSR_MSTATUS] := mstatus;
      assert csrs.View() == was[CSR_MEPC := faultPc][CSR_MTVAL := tval][CSR_MCAUSE := T.CauseWord(interrupt, code)]
                               [CSR_MSTATUS := mstatus];
      mode := Machine;
      pc := T.TrapVector(csrs.storage[CSR_MTVEC], interrupt, code);
    }

    /** Trap entry, register by register; host-only traps leave the hart untouched. */
    method HandleTrap(t: Trap, faultPc: u64)
      requires Valid()
      modifies this`mode, this`pc, csrs.storage
      ensures State() == old(State()).(hart := T.HandleTrap(old(State()).hart, t, faultPc))
    {
      hide B.Bit, T.EnterSupervisor, T.EnterMachine;
      match T.CauseOf(t)
      case HostOnly =>
      case Architectural(interrupt, code, tval) =>
        if mode != Machine && B.Bit(csrs.storage[if interrupt then CSR_MIDELEG else CSR_MEDELEG], code) {
          EnterSupervisor(interrupt, code, tval, faultPc);
        } else {
          EnterMachine(interrupt, code, tval, faultPc);
        }
    }

    /** Trap on the current instruction. */
    method Fault(t: Trap) returns (err: Option<Trap>)
      requires Valid()
      modifies this`mode, this`pc, csrs.storage
      ensures I.Step(State(), err) == I.Fault(old(State()), t)
    {
      hide T.HandleTrap;
      HandleTrap(t, pc);
      err := Some(t);
    }

    // ---- Fetch -----------------------------------------------------------------------------------------------

    /** Expand a halfword instruction. */
    method Expand(half: D.u16) returns (insn: Result<u32>, len: nat)
      ensures insn == D.ExpandCompressed(half) && len == 2
    {
      insn, len := D.ExpandCompressed(half), 2;
    }

    /** Second half of a fetch: the upper halfword is translated on its own. */
    method FetchUpper(at: u64, low: D.u16) returns (insn: Result<u32>, len: nat)
      requires Valid()
      modifies tlb.entries, bus
      ensures FetchOf(State(), insn, len) == UpperOf(old(State()), at, low)
    {
      hide I.Translate, Read, D.ExpandCompressed, WrappingAdd;
      var high := Translate(WrappingAdd(at, 2), M.Instruction);
      if high.Err? {
        return Err(high.trap), 0;
      }
      var rest := bus.Load(high.value, W16);
      if rest.Err? {
        return Err(I.FetchTrap(rest.trap, at)), 0;
      }
      return Ok(low + rest.value * 0x1_0000), 4;
    }

    /** From a halfword that has been loaded on: expand it, or fetch the rest. */
    method FetchFrom(at: u64, half: Result<u64>) returns (insn: Result<u32>, len: nat)
      requires Valid() && (half.Ok? ==> half.value < 0x1_0000)
      modifies tlb.entries, bus
      ensures FetchOf(State(), insn, len) == FromHalf(old(State()), at, half)
    {
      hide I.Translate, Read, D.ExpandCompressed, UpperOf;
      if half.Err? {
        return Err(I.FetchTrap(half.trap, at)), 0;
      }
      if half.value % 4 != 3 {
        insn, len := Expand(half.value);
        return;
      }
      insn, len := FetchUpper(at, half.value);
    }

    /** The compiler's fetch: one translation, used for the word and, if that fails, for the first halfword. */
    method FetchInsn(at: u64) returns (insn: Result<u32>, len: nat)
      requires Valid()
      modifies tlb.entries, bus
      ensures FetchOf(State(), insn, len) == K.FetchInsn(old(State()), at)
    {
      hide I.Translate, Read, D.ExpandCompressed, WrappingAdd;
      if at % 2 != 0 {
        return Err(InstructionAddressMisaligned(at)), 0;
      }
      var pa := Translate(at, M.Instruction);
      if pa.Err? {
        return Err(pa.trap), 0;
      }
      if at % 4 == 0 {
        var word := bus.Load(pa.value, W32);
        if word.Ok? {
          if word.value % 4 != 3 {
            insn, len := Expand(word.value % 0x1_0000);
            return;
          }
          return Ok(word.value), 4;
        }
      }
      var half := bus.Load(pa.value, W16);
      insn, len := FetchFrom(at, half);
    }

    /** The interpreter's fetch: if the word fails, everything is translated again. */
    method FetchAndExpand() returns (insn: Result<u32>, len: nat)
      requires Valid()
      modifies tlb.entries, bus
      ensures FetchOf(State(), insn, len) == I.FetchAndExpand(old(State()))
    {
      hide I.Translate, Read, D.ExpandCompressed, WrappingAdd;
      if pc % 2 != 0 {
        return Err(InstructionAddressMisaligned(pc)), 0;
      }
      if pc % 4 == 0 {
        var pa := Translate(pc, M.Instruction);
        if pa.Err? {
          return Err(pa.trap), 0;
        }
        var word := bus.Load(pa.value, W32);
        if word.Ok? {
          if word.value % 4 != 3 {
            insn, len := Expand(word.value % 0x1_0000);
            return;
          }
          return Ok(word.value), 4;
        }
      }
      var pa := Translate(pc, M.Instruction);
      if pa.Err? {
        return Err(pa.trap), 0;
      }
      var half := bus.Load(pa.value, W16);
      insn, len := FetchFrom(pc, half);
    }

    // ---- Instructions ------------------------------------------------------------------------------------------

    method Finish(rd: D.Reg, v: Option<u64>, raw: u32, next: u64) returns (err: Option<Trap>)
      requires Valid()
      modifies this`regs, this`pc, this`mode, csrs.storage
      ensures I.Step(State(), err) == I.Finish(old(State()), rd, v, raw, next)
    {
      hide I.Fault;
      if v.None? {
        err := Fault(IllegalInstruction(raw));
        return;
      }
      WriteRegister(rd, v.value);
      pc := next;
      err := None;
    }

    method Jump(target: u64) returns (err: Option<Trap>)
      requires Valid()
      modifies this`pc, this`mode, csrs.storage
      ensures I.Step(State(), err) == I.Jump(old(State()), target)
    {
      hide I.Fault;
      if target % 2 != 0 {
        err := Fault(InstructionAddressMisaligned(target));
        return;
      }
      pc := target;
      err := None;
    }

    method ExecLoad(rd: D.Reg, rs1: D.Reg, imm: int, funct3: int, raw: u32, next: u64) returns (err: Option<Trap>)
      requires Valid()
      modifies this`regs, this`pc, this`mode, csrs.storage, tlb.entries, bus
      ensures I.Step(State(), err) == I.ExecLoad(old(State()), rd, rs1, imm, funct3, raw, next)
    {
      hide I.Fault, I.Translate, Read, WrappingAdd, I.SextTo64, ToU64;
      var k := I.LoadKindOf(funct3);
      if k.None? {
        err := Fault(IllegalInstruction(raw));
        return;
      }
      var base := ReadRegister(rs1);
      var pa := Translate(WrappingAdd(base, ToU64(imm)), M.Load);
      if pa.Err? {
        err := Fault(pa.trap);
        return;
      }
      var v := bus.Load(pa.value, k.value.width);
      if v.Err? {
        err := Fault(v.trap);
        return;
      }
      WriteRegister(rd, if k.value.signed then I.SextTo64(v.value, k.value.width) else v.value);
      pc := next;
      err := None;
    }

    method ExecStore(rs1: D.Reg, rs2: D.Reg, imm: int, funct3: int, raw: u32, next: u64) returns (err: Option<Trap>)
      requires Valid()
      modifies this`pc, this`reservation, this`mode, csrs.storage, tlb.entries, bus
      ensures I.Step(State(), err) == I.ExecStore(old(State()), rs1, rs2, imm, funct3, raw, next)
    {
      hide I.Fault, I.Translate, Write, WrappingAdd, ClearConflict, ToU64;
      var base := ReadRegister(rs1);
      var addr := WrappingAdd(base, ToU64(imm));
      var pa := Translate(addr, M.Store);
      if pa.Err? {
        err := Fault(pa.trap);
        return;
      }
      reservation := ClearConflict(reservation, addr);
      var w := I.StoreWidth(funct3);
      if w.None? {
        err := Fault(IllegalInstruction(raw));
        return;
      }
      var v := ReadRegister(rs2);
      var error := bus.Store(pa.value, w.value, v);
      if error.Some? {
        err := Fault(error.value);
        return;
      }
      pc := next;
      err := None;
    }

    method ExecLr(pa: u64, addr: u64, w: Width, rd: D.Reg, next: u64) returns (err: Option<Trap>)
      requires Valid()
      modifies this`regs, this`pc, this`reservation, this`mode, csrs.storage
      ensures I.Step(State(), err) == I.ExecLr(old(State()), pa, addr, w, rd, next)
    {
      hide I.Fault, Read, I.Widen, Granule;
      var v := bus.Load(pa, w);
      if v.Err? {
        err := Fault(v.trap);
        return;
      }
      WriteRegister(rd, I.Widen(v.value, w));
      reservation := Some(Granule(addr));
      pc := next;
      err := None;
    }

    method ExecSc(pa: u64, addr: u64, w: Width, rd: D.Reg, rs2: D.Reg, next: u64) returns (err: Option<Trap>)
      requires Valid()
      modifies this`regs, this`pc, this`reservation, this`mode, csrs.storage, bus
      ensures I.Step(State(), err) == I.ExecSc(old(State()), pa, addr, w, rd, rs2, next)
    {
      hide I.Fault, Write, Granule;
      if addr % Size(w) != 0 {
        err := Fault(StoreAddressMisaligned(addr));
        return;
      }
      if reservation == Some(Granule(addr)) {
        var v := ReadRegister(rs2);
        var error := bus.Store(pa, w, v);
        if error.Some? {
          err := Fault(error.value);
          return;
        }
        WriteRegister(rd, 0);
        reservation := None;
      } else {
        WriteRegister(rd, 1);
      }
      pc := next;
      err := None;
    }

    method ExecRmw(pa: u64, addr: u64, w: Width, funct5: int, rd: D.Reg, rs2: D.Reg, raw: u32, next: u64)
      returns (err: Option<Trap>)
      requires Valid()
      modifies this`regs, this`pc, this`reservation, this`mode, csrs.storage, bus
      ensures I.Step(State(), err) == I.ExecRmw(old(State()), pa, addr, w, funct5, rd, rs2, raw, next)
    {
      hide I.Fault, Read, Write, I.Widen, I.AmoValue, ClearConflict;
      var v := ReadRegister(rs2);
      if I.AmoValue(funct5, 0, v, w).None? {
        err := Fault(IllegalInstruction(raw));
        return;
      }
      reservation := ClearConflict(reservation, addr);
      var r := bus.Load(pa, w);
      if r.Err? {
        err := Fault(I.AmoTrap(bus.mem, pa, r.trap));
        return;
      }
      var prev := I.Widen(r.value, w);
      W.AmoTotal(funct5, prev, v, w);
      var error := bus.Store(pa, w, I.AmoValue(funct5, prev, v, w).value);
      if error.Some? {
        err := Fault(I.AmoTrap(bus.mem, pa, error.value));
        return;
      }
      WriteRegister(rd, prev);
      pc := next;
      err := None;
    }

    method ExecAmo(rd: D.Reg, rs1: D.Reg, rs2: D.Reg, funct3: int, funct5: int, raw: u32, next: u64)
        returns (err: Option<Trap>)
      requires Valid()
      modifies this`regs, this`pc, this`reservation, this`mode, csrs.storage, tlb.entries, bus
      ensures I.Step(State(), err) == I.ExecAmo(old(State()), rd, rs1, rs2, funct3, funct5, raw, next)
    {
      hide I.Fault, I.Translate, I.ExecLr, I.ExecSc, I.ExecRmw;
      var addr := ReadRegister(rs1);
      var pa := Translate(addr, M.Load);
      if pa.Err? {
        err := Fault(pa.trap);
        return;
      }
      var w := I.AmoWidth(funct3);
      if w.None? {
        err := Fault(IllegalInstruction(raw));
      } else if funct5 == 0x02 {
        err := ExecLr(pa.value, addr, w.value, rd, next);
      } else if funct5 == 0x03 {
        err := ExecSc(pa.value, addr, w.value, rd, rs2, next);
      } else {
        err := ExecRmw(pa.value, addr, w.value, funct5, rd, rs2, raw, next);
      }
    }

    method ExecPrivileged(raw: u32, next: u64) returns (err: Option<Trap>)
      requires Valid()
      modifies this`pc, this`mode, csrs.storage, tlb.entries
      ensures I.Step(State(), err) == I.ExecPrivileged(old(State()), raw, next)
    {
      hide I.Fault, I.IsSfenceVma, T.StatusMret, T.StatusSret, T.MppMode, B.Bit;
      if I.IsSfenceVma(raw) {
        if mode == User {
          err := Fault(IllegalInstruction(raw));
          return;
        }
        tlb.Flush();
        pc := next;
        err := None;
      } else if raw == 0x0010_0073 {
        err := Fault(Breakpoint);
      } else if raw == 0x1050_0073 {
        err := Fault(Trap.Wfi);
      } else if raw == 0x0000_0073 {
        err := Fault(match mode
                     case User => EnvironmentCallFromU
                     case Supervisor => EnvironmentCallFromS
                     case Machine => EnvironmentCallFromM);
      } else if raw == 0x3020_0073 && mode == Machine {
        Mret();
        err := None;
      } else if raw == 0x1020_0073 && mode == Supervisor {
        Sret();
        err := None;
      } else {
        err := Fault(IllegalInstruction(raw));
      }
    }

    method Mret()
      requires Valid() && mode == Machine
      modifies this`pc, this`mode, csrs.storage
      ensures State() == old(State()).(hart := T.Mret(old(State()).hart))
    {
      hide B.Bit, B.SetBit, FromMpp;
      ghost var was := csrs.View();
      var mstatus := csrs.storage[CSR_MSTATUS];
      mode := T.MppMode(mstatus);
      mstatus := B.SetBit(mstatus, T.MIE_BIT, B.Bit(mstatus, T.MPIE_BIT));
      mstatus := B.SetBit(mstatus, T.MPIE_BIT, true);
      mstatus := B.SetBit(mstatus, T.MPP_LOW, false);
      mstatus := B.SetBit(mstatus, T.MPP_HIGH, false);
      csrs.storage[CSR_MSTATUS] := mstatus;
      assert csrs.View() == was[CSR_MSTATUS := mstatus];
      pc := csrs.storage[CSR_MEPC];
    }

    method Sret()
      requires Valid() && mode == Supervisor
      modifies this`pc, this`mode, csrs.storage
      ensures State() == old(State()).(hart := T.Sret(old(State()).hart))
    {
      hide B.Bit, B.SetBit;
      ghost var was := csrs.View();
      var mstatus := csrs.storage[CSR_MSTATUS];
      mode := if B.Bit(mstatus, T.SPP_BIT) then Supervisor else User;
      mstatus := B.SetBit(mstatus, T.SIE_BIT, B.Bit(mstatus, T.SPIE_BIT));
      mstatus := B.SetBit(mstatus, T.SPIE_BIT, true);
      mstatus := B.SetBit(mstatus, T.SPP_BIT, false);
      csrs.storage[CSR_MSTATUS] := mstatus;
      assert csrs.View() == was[CSR_MSTATUS := mstatus];
      pc := csrs.storage[CSR_SEPC];
    }

    /** The value of a control register before the instruction writes it; `time` is read from the timer. */
    method CsrOld(csr: CsrAddr) returns (r: Result<u64>)
      requires Valid()
      ensures r == I.CsrOld(State(), csr)
    {
      hide Read, CsrRead;
      if csr == CSR_TIME {
        var v := bus.Load(I.MTIME, W64);
        return Ok(if v.Ok? then v.value else 0);
      }
      r := csrs.ReadCsr(csr, mode);
    }

    method ExecCsr(rd: D.Reg, rs1: D.Reg, funct3: int, csr: CsrAddr, next: u64) returns (err: Option<Trap>)
      requires Valid()
      modifies this`regs, this`pc, this`mode, csrs.storage, tlb.entries
      ensures I.Step(State(), err) == I.ExecCsr(old(State()), rd, rs1, funct3, csr, next)
    {
      hide I.Fault, I.CsrOld, I.CsrNew, CsrWrite;
      var prev := CsrOld(csr);
      if prev.Err? {
        err := Fault(prev.trap);
        return;
      }
      var operand := ReadRegister(rs1);
      var v := I.CsrNew(funct3, rs1, operand, prev.value);
      if v.Some? {
        var error := csrs.WriteCsr(csr, v.value, mode);
        if error.Some? {
          err := Fault(error.value);
          return;
        }
        if csr == CSR_SATP {
          tlb.Flush();
        }
      }
      WriteRegister(rd, prev.value);
      pc := next;
      err := None;
    }

    method ExecSystem(rd: D.Reg, rs1: D.Reg, funct3: int, imm: int, raw: u32, next: u64) returns (err: Option<Trap>)
      requires Valid()
      modifies this`regs, this`pc, this`mode, csrs.storage, tlb.entries
      ensures I.Step(State(), err) == I.ExecSystem(old(State()), rd, rs1, funct3, imm, raw, next)
    {
      hide I.Fault, I.ExecPrivileged, I.ExecCsr;
      if funct3 == 0 {
        err := ExecPrivileged(raw, next);
      } else if funct3 == 4 || !(0 < funct3 < 8) {
        err := Fault(IllegalInstruction(raw));
      } else {
        err := ExecCsr(rd, rs1, funct3, imm % 0x1000, next);
      }
    }

    method ExecBranch(rs1: D.Reg, rs2: D.Reg, imm: int, funct3: int, raw: u32, next: u64) returns (err: Option<Trap>)
      requires Valid()
      modifies this`pc, this`mode, csrs.storage
      ensures I.Step(State(), err) ==
                match I.Taken(funct3, ReadReg(old(regs), rs1), ReadReg(old(regs), rs2))
                case None => I.Fault(old(State()), IllegalInstruction(raw))
                case Some(taken) =>
                  if taken then I.Jump(old(State()), WrappingAdd(old(pc), ToU64(imm))) else I.Retire(old(State()), next)
    {
      hide I.Fault, I.Jump, I.Taken, WrappingAdd, ToU64;
      var a := ReadRegister(rs1);
      var b := ReadRegister(rs2);
      match I.Taken(funct3, a, b)
      case None => err := Fault(IllegalInstruction(raw));
      case Some(taken) =>
        if taken {
          err := Jump(WrappingAdd(pc, ToU64(imm)));
        } else {
          pc := next;
          err := None;
        }
    }

    /** LUI, AUIPC and the register computations. */
    method ExecCompute(op: D.Op, raw: u32, len: nat) returns (err: Option<Trap>)
      requires Valid() && (op.Lui? || op.Auipc? || op.OpImm? || op.OpReg? || op.OpImm32? || op.OpReg32?)
      modifies this`regs, this`pc, this`mode, csrs.storage
      ensures I.Step(State(), err) == I.Execute(op, raw, len, old(State()))
    {
      hide I.ExecLoad, I.ExecStore, I.ExecAmo, I.ExecSystem, I.Fault, I.Jump, I.Finish, I.Taken, I.OpImmValue,
        I.OpValue, I.OpImm32Value, I.Op32Value, WrappingAdd, ToU64;
      var next := ToU64(pc + len);
      match op
      case Lui(rd, imm) =>
        WriteRegister(rd, ToU64(imm));
        pc := next;
        err := None;
      case Auipc(rd, imm) =>
        WriteRegister(rd, WrappingAdd(pc, ToU64(imm)));
        pc := next;
        err := None;
      case OpImm(rd, rs1, imm, funct3, funct7) =>
        var a := ReadRegister(rs1);
        err := Finish(rd, I.OpImmValue(funct3, funct7, a, imm), raw, next);
      case OpReg(rd, rs1, rs2, funct3, funct7) =>
        var a := ReadRegister(rs1);
        var b := ReadRegister(rs2);
        err := Finish(rd, I.OpValue(funct3, funct7, a, b), raw, next);
      case OpImm32(rd, rs1, imm, funct3, funct7) =>
        var a := ReadRegister(rs1);
        err := Finish(rd, I.OpImm32Value(funct3, funct7, a, imm), raw, next);
      case OpReg32(rd, rs1, rs2, funct3, funct7) =>
        var a := ReadRegister(rs1);
        var b := ReadRegister(rs2);
        err := Finish(rd, I.Op32Value(funct3, funct7, a, b), raw, next);
    }

    /** Jumps and branches. */
    method ExecTransfer(op: D.Op, raw: u32, len: nat) returns (err: Option<Trap>)
      requires Valid() && (op.Jal? || op.Jalr? || op.Branch?)
      modifies this`regs, this`pc, this`mode, csrs.storage
      ensures I.Step(State(), err) == I.Execute(op, raw, len, old(State()))
    {
      hide I.ExecLoad, I.ExecStore, I.ExecAmo, I.ExecSystem, I.Fault, I.Jump, I.Finish, I.Taken, I.OpImmValue,
        I.OpValue, I.OpImm32Value, I.Op32Value, WrappingAdd, ToU64;
      var next := ToU64(pc + len);
      match op
      case Jal(rd, imm) =>
        WriteRegister(rd, next);
        err := Jump(WrappingAdd(pc, ToU64(imm)));
      case Jalr(rd, rs1, imm) =>
        var base := ReadRegister(rs1);
        var sum := WrappingAdd(base, ToU64(imm));
        WriteRegister(rd, next);
        err := Jump(sum - sum % 2);
      case Branch(rs1, rs2, imm, funct3) =>
        err := ExecBranch(rs1, rs2, imm, funct3, raw, next);
    }

    method Execute(op: D.Op, raw: u32, len: nat) returns (err: Option<Trap>)
      requires Valid()
      modifies this`regs, this`pc, this`reservation, this`mode, csrs.storage, tlb.entries, bus
      ensures I.Step(State(), err) == I.Execute(op, raw, len, old(State()))
    {
      hide I.Execute, I.ExecLoad, I.ExecStore, I.ExecAmo, I.ExecSystem, ToU64;
      ghost var s := State();
      W.ExecuteDispatch(op, raw, len, s);
      var next := ToU64(pc + len);
      match op
      case Load(rd, rs1, imm, funct3) => err := ExecLoad(rd, rs1, imm, funct3, raw, next);
      case Store(rs1, rs2, imm, funct3) => err := ExecStore(rs1, rs2, imm, funct3, raw, next);
      case System(rd, rs1, funct3, imm) => err := ExecSystem(rd, rs1, funct3, imm, raw, next);
      case Amo(rd, rs1, rs2, funct3, funct5, _, _) => err := ExecAmo(rd, rs1, rs2, funct3, funct5, raw, next);
      case Fence =>
        pc := next;
        err := None;
        FenceRetires(raw, len, s);
      case Jal(_, _) => err := ExecTransfer(op, raw, len);
      case Jalr(_, _, _) => err := ExecTransfer(op, raw, len);
      case Branch(_, _, _, _) => err := ExecTransfer(op, raw, len);
      case _ => err := ExecCompute(op, raw, len);
    }

    // ---- Blocks ------------------------------------------------------------------------------------------------

    method LoadOp(rd: D.Reg, rs1: D.Reg, imm: int, w: Width, signed: bool, at: u64) returns (r: OpResult)
      requires Valid()
      modifies this`regs, tlb.entries, bus
      ensures OpOut(State(), r) == K.LoadOp(old(State()), rd, rs1, imm, w, signed, at)
    {
      hide I.Translate, Read, WrappingAdd, ToU64, I.SextTo64;
      var pa := Translate(WrappingAdd(regs[rs1], ToU64(imm)), M.Load);
      if pa.Err? {
        return Ends(TrapAt(pa.trap, at));
      }
      var v := bus.Load(pa.value, w);
      if v.Err? {
        return Ends(TrapAt(v.trap, at));
      }
      WriteRegister(rd, if signed then I.SextTo64(v.value, w) else v.value);
      return GoesOn;
    }

    method StoreOp(rs1: D.Reg, rs2: D.Reg, imm: int, w: Width, at: u64) returns (r: OpResult)
      requires Valid()
      modifies this`reservation, tlb.entries, bus
      ensures OpOut(State(), r) == K.StoreOp(old(State()), rs1, rs2, imm, w, at)
    {
      hide I.Translate, Write, WrappingAdd, ToU64, ClearConflict;
      var addr := WrappingAdd(regs[rs1], ToU64(imm));
      var pa := Translate(addr, M.Store);
      if pa.Err? {
        return Ends(TrapAt(pa.trap, at));
      }
      var error := bus.Store(pa.value, w, regs[rs2]);
      if error.Some? {
        return Ends(TrapAt(error.value, at));
      }
      reservation := ClearConflict(reservation, addr);
      return GoesOn;
    }

    method AnyLoad(op: Micro.MicroOp, at: u64) returns (r: OpResult)
      requires Valid() && (op.Lb? || op.Lbu? || op.Lh? || op.Lhu? || op.Lw? || op.Lwu? || op.Ld?)
      modifies this`regs, tlb.entries, bus
      ensures OpOut(State(), r) == K.AccessOp(op, at, old(State()))
    {
      hide K.LoadOp, K.StoreOp, OpOut;
      match op
      case Lb(rd, rs1, imm, _) => r := LoadOp(rd, rs1, imm, W8, true, at);
      case Lbu(rd, rs1, imm, _) => r := LoadOp(rd, rs1, imm, W8, false, at);
      case Lh(rd, rs1, imm, _) => r := LoadOp(rd, rs1, imm, W16, true, at);
      case Lhu(rd, rs1, imm, _) => r := LoadOp(rd, rs1, imm, W16, false, at);
      case Lw(rd, rs1, imm, _) => r := LoadOp(rd, rs1, imm, W32, true, at);
      case Lwu(rd, rs1, imm, _) => r := LoadOp(rd, rs1, imm, W32, false, at);
      case Ld(rd, rs1, imm, _) => r := LoadOp(rd, rs1, imm, W64, false, at);
    }

    method AnyStore(op: Micro.MicroOp, at: u64) returns (r: OpResult)
      requires Valid() && (op.Sb? || op.Sh? || op.Sw? || op.Sd?)
      modifies this`reservation, tlb.entries, bus
      ensures OpOut(State(), r) == K.AccessOp(op, at, old(State()))
    {
      hide K.LoadOp, K.StoreOp, OpOut;
      match op
      case Sb(rs1, rs2, imm, _) => r := StoreOp(rs1, rs2, imm, W8, at);
      case Sh(rs1, rs2, imm, _) => r := StoreOp(rs1, rs2, imm, W16, at);
      case Sw(rs1, rs2, imm, _) => r := StoreOp(rs1, rs2, imm, W32, at);
      case Sd(rs1, rs2, imm, _) => r := StoreOp(rs1, rs2, imm, W64, at);
    }

    method AccessOp(op: Micro.MicroOp, at: u64) returns (r: OpResult)
      requires Valid() && Micro.KindOf(op) == Micro.Access
      modifies this`regs, this`reservation, tlb.entries, bus
      ensures OpOut(State(), r) == K.AccessOp(op, at, old(State()))
    {
      hide K.AccessOp, OpOut;
      if op.Sb? || op.Sh? || op.Sw? || op.Sd? {
        r := AnyStore(op, at);
      } else {
        r := AnyLoad(op, at);
      }
    }

    method JumpOp(op: Micro.MicroOp, at: u64) returns (next: u64)
      requires Valid() && (op.Jal? || op.Jalr?)
      modifies this`regs
      ensures K.Continue(State(), next) == K.TransferOp(op, at, old(State()))
    {
      hide WrappingAdd, ToU64, I.SetReg;
      match op
      case Jal(rd, imm, _, len) =>
        WriteRegister(rd, ToU64(at + len));
        next := WrappingAdd(at, ToU64(imm));
      case Jalr(rd, rs1, imm, _, len) =>
        var sum := WrappingAdd(regs[rs1], ToU64(imm));
        WriteRegister(rd, ToU64(at + len));
        next := sum - sum % 2;
    }

    method BranchOp(op: Micro.MicroOp, at: u64) returns (next: u64)
      requires Valid() && (op.Beq? || op.Bne? || op.Blt? || op.Bge? || op.Bltu? || op.Bgeu?)
      ensures K.Continue(State(), next) == K.TransferOp(op, at, State())
    {
      hide WrappingAdd, ToU64, B.I64, I.SetReg;
      var a, b := regs[op.rs1], regs[op.rs2];
      var taken: bool;
      match op {
        case Beq(_, _, _, _, _) => taken := a == b;
        case Bne(_, _, _, _, _) => taken := a != b;
        case Blt(_, _, _, _, _) => taken := B.I64(a) < B.I64(b);
        case Bge(_, _, _, _, _) => taken := B.I64(a) >= B.I64(b);
        case Bltu(_, _, _, _, _) => taken := a < b;
        case Bgeu(_, _, _, _, _) => taken := a >= b;
      }
      next := if taken then WrappingAdd(at, ToU64(op.imm)) else ToU64(at + op.insnLen);
    }

    method TransferOp(op: Micro.MicroOp, at: u64) returns (next: u64)
      requires Valid() && Micro.KindOf(op) == Micro.Transfer
      modifies this`regs
      ensures K.Continue(State(), next) == K.TransferOp(op, at, old(State()))
    {
      hide K.TransferOp;
      if op.Jal? || op.Jalr? {
        next := JumpOp(op, at);
      } else {
        next := BranchOp(op, at);
      }
    }

    method ComputeOp(op: Micro.MicroOp, base: u64)
      requires Valid()
      modifies this`regs
      ensures var w := K.AluWrite(op, base, old(regs)); State() == I.SetReg(old(State()), w.rd, w.v)
    {
      hide K.AluWrite;
      var w := K.AluWrite(op, base, regs);
      WriteRegister(w.rd, w.v);
    }

    /** One operation of a block. */
    method ExecuteOp(op: Micro.MicroOp, base: u64) returns (r: OpResult)
      requires Valid()
      modifies this`regs, this`reservation, tlb.entries, bus
      ensures OpOut(State(), r) == K.MicroStep(op, base, old(State()))
    {
      hide K.MicroStep, K.AluWrite, K.AccessOp, K.TransferOp, Micro.KindOf, Micro.PcOffset, ToU64, I.SetReg;
      C.MicroCases(op, base, State());
      var at := ToU64(base + Micro.PcOffset(op));
      match Micro.KindOf(op)
      case Leave => r := Ends(Exit(at));
      case Transfer =>
        var next := TransferOp(op, at);
        r := Ends(Continue(next));
      case Access => r := AccessOp(op, at);
      case Nothing => r := GoesOn;
      case Compute =>
        ComputeOp(op, base);
        r := GoesOn;
    }

    /** The execution loop over a block's operations. */
    method ExecuteBlockInner(b: K.Block) returns (r: BlockResult)
      requires Valid()
      modifies this`regs, this`reservation, tlb.entries, bus
      ensures OutOf(State(), r) == K.RunBlock(b, old(State()))
    {
      hide K.MicroStep, ToU64;
      var idx := 0;
      while idx < |b.ops|
        invariant idx <= |b.ops|
        invariant K.RunOps(b, idx, State()) == K.RunBlock(b, old(State()))
      {
        var o := ExecuteOp(b.ops[idx], b.startPc);
        idx := idx + 1;
        if o.Ends? {
          return o.result;
        }
      }
      return Continue(ToU64(b.startPc + b.byteLen));
    }

    /** Decode the fetched instruction and append its operation; what the loop does next. */
    method Append(b: BlockBuffer, insn: u32, len: nat, at: u64, off: nat) returns (move: K.Move)
      requires b.Valid() && b.next == None
      modifies b, b.ops
      ensures b.Valid() && move == K.Advance(old(b.View()), insn, len, at, off)
      ensures move.More? ==> b.View() == move.block && b.next == None
    {
      hide D.Decode, Micro.Transcode, Micro.IsTerminator, K.NextPage, K.JumpTarget, ToU64;
      ghost var before := b.View();
      var op := D.Decode(insn);
      if op.Err? {
        return if b.len > 0 then K.Done(b.View()) else K.Refuse(op.trap);
      }
      var micro := Micro.Transcode(op.value, off, len);
      var pushed := b.Push(micro, len);
      if !pushed {
        b.next := Some(at);
        return K.Done(b.View());
      }
      assert b.View() == K.Appended(before, micro, len);
      if Micro.IsTerminator(micro) {
        b.next := K.JumpTarget(op.value, at);
        return K.Done(b.View());
      }
      var after := ToU64(at + len);
      if after >= K.NextPage(b.startPc) {
        b.next := Some(after);
        return K.Done(b.View());
      }
      return K.More(b.View(), after);
    }

    /** The compilation loop. */
    method Compile(startPc: u64) returns (r: CompileResult)
      requires Valid()
      modifies tlb.entries, bus
      ensures CompiledOf(State(), r) == K.Compile(old(State()), startPc, old(blockCache.generation))
    {
      hide K.FetchInsn, I.Translate, K.Advance;
      var pa := Translate(startPc, M.Instruction);
      if pa.Err? {
        return CompileTrap(pa.trap);
      }
      var b := new BlockBuffer(startPc, pa.value, blockCache.generation);
      var at: u64, off: nat := startPc, 0;
      while true
        invariant b.Valid() && fresh(b) && fresh(b.ops) && b.next == None
        invariant K.CompileFrom(State(), b.View(), at, off) == K.Compile(old(State()), startPc,
                                                                         old(blockCache.generation))
        decreases K.MAX_BLOCK_SIZE - b.len
      {
        var insn, len := FetchInsn(at);
        if insn.Err? {
          return if b.len > 0 then Compiled(b.View()) else CompileTrap(insn.trap);
        }
        var move := Append(b, insn.value, len, at, off);
        match move
        case Done(block) => return Compiled(block);
        case Refuse(trap) => return CompileTrap(trap);
        case More(_, after) =>
          at := after;
          off := off + len;
      }
    }

    /** The interpreter's step, decode cache first. */
    method StepSingleInner() returns (err: Option<Trap>)
      requires Valid()
      modifies this`regs, this`pc, this`reservation, this`mode, csrs.storage, tlb.entries, bus, this`decodeCache
      ensures E.Stepped(View(), err, 1) == E.StepSingle(old(View()))
    {
      hide I.FetchAndExpand, I.Execute, D.Decode, T.HandleTrap, E.DecodeSlot, E.FlushesDecode;
      var at := pc;
      var insn, len := FetchAndExpand();
      if insn.Err? {
        err := Fault(insn.trap);
        return;
      }
      var raw := insn.value;
      var cached := E.CachedOp(decodeCache, at, raw);
      if cached.None? {
        var decoded := D.Decode(raw);
        if decoded.Err? {
          err := Fault(decoded.trap);
          return;
        }
        decodeCache := decodeCache[E.DecodeSlot(at) := E.DecodeEntry(at, raw, decoded.value)];
        cached := Some(decoded.value);
      }
      err := Execute(cached.value, raw, len);
      if E.FlushesDecode(cached.value, raw, err) {
        decodeCache := map[];
      }
    }

    /** The block at the current pc, from the cache or, at the start of a chain, freshly compiled. */
    method FindOrCompile(chain: nat, ghost ran: nat) returns (found: Option<K.Block>, err: Option<Trap>,
                                                              ghost evicted: set<u64>)
      requires chain < E.MAX_CHAIN_DEPTH
      requires Valid()
      modifies this`regs, this`pc, this`reservation, this`mode, csrs.storage, tlb.entries, bus, blockCache
      ensures found.Some? ==>
                E.RunChained(View(), found.value, chain, evicted, ran) == E.TryBlock(old(View()), chain, evicted, ran)
      ensures found.None? ==>
                E.Finished(View(), err, if err.Some? then ran + 1 else ran)
                == E.TryBlock(old(View()), chain, evicted, ran)
      ensures chain > 0 ==> evicted == {}
    {
      hide K.Compile, T.HandleTrap, E.RunChained, K.RunBlock;
      err, evicted := None, {};
      found := blockCache.GetAndTouch(pc);
      if found.Some? || chain > 0 {
        return;
      }
      var compiled := Compile(pc);
      if compiled.CompileTrap? {
        HandleTrap(compiled.trap, pc);
        return None, Some(compiled.trap), evicted;
      }
      evicted := blockCache.Insert(compiled.block);
      found := Some(compiled.block);
    }

    /** Run one block of a chain.  `over` tells whether the chain ends here, and how. */
    method RunOne(b: K.Block, chain: nat, ghost evicted: set<u64>, ghost ran: nat)
      returns (over: bool, result: Option<Option<Trap>>, ghost total: nat)
      requires chain < E.MAX_CHAIN_DEPTH
      requires Valid()
      modifies this`regs, this`pc, this`reservation, this`mode, csrs.storage, tlb.entries, bus
      ensures over ==> OutcomeOf(View(), result, total) == E.RunChained(old(View()), b, chain, evicted, ran)
      ensures !over ==> chain + 1 < E.MAX_CHAIN_DEPTH
                        && E.TryBlock(View(), chain + 1, evicted, total)
                           == E.RunChained(old(View()), b, chain, evicted, ran)
    {
      hide K.RunBlock, T.HandleTrap, E.TryBlock, K.Steps;
      total := ran + K.Steps(b, 0, State());
      var r := ExecuteBlockInner(b);
      match r
      case TrapAt(t, faultPc) =>
        HandleTrap(t, faultPc);
        return true, Some(Some(t)), total;
      case Exit(next) =>
        pc := next;
        return true, None, total;
      case Continue(next) =>
        pc := next;
        return !(chain + 1 < E.MAX_CHAIN_DEPTH && b.next == Some(next)), Some(None), total;
    }

    /** Execute blocks from the current pc on, chaining while the recorded successor is where the run went
        and is cached.  `None` hands the current instruction to the interpreter. */
    method TryExecuteBlock() returns (result: Option<Option<Trap>>, ghost evicted: set<u64>, ghost ran: nat)
      requires Valid()
      modifies this`regs, this`pc, this`reservation, this`mode, csrs.storage, tlb.entries, bus, blockCache
      ensures OutcomeOf(View(), result, ran) == E.TryBlock(old(View()), 0, evicted, 0)
    {
      hide E.TryBlock, E.RunChained;
      var chain := 0;
      evicted, ran := {}, 0;
      while true
        invariant chain < E.MAX_CHAIN_DEPTH
        invariant chain == 0 ==> View() == old(View()) && evicted == {} && ran == 0
        invariant chain > 0 ==> E.TryBlock(View(), chain, evicted, ran) == E.TryBlock(old(View()), 0, evicted, 0)
        decreases E.MAX_CHAIN_DEPTH - chain
      {
        ghost var x := View();
        var found, err, gone := FindOrCompile(chain, ran);
        if chain == 0 {
          evicted := gone;
        } else {
          EvictionUnused(x, chain, gone, evicted, ran);
        }
        if found.None? {
          return Some(err), evicted, if err.Some? then ran + 1 else ran;
        }
        if chain > 0 {
          EvictionUnusedRun(View(), found.value, chain, gone, evicted, ran);
        }
        var over, end, total := RunOne(found.value, chain, evicted, ran);
        ran := total;
        if over {
          return end, evicted, ran;
        }
        chain := chain + 1;
      }
    }

    /** One step without an interrupt poll: blocks if enabled, else, or where blocks hand back, the interpreter. */
    method Step() returns (err: Option<Trap>, ghost choice: E.Choice, ghost ran: nat)
      requires Valid()
      modifies this`regs, this`pc, this`reservation, this`mode, csrs.storage, tlb.entries, bus, this`decodeCache,
               blockCache
      ensures choice.useBlocks == useBlocks && E.Stepped(View(), err, ran) == E.Step(old(View()), choice)
    {
      hide E.TryBlock, E.StepSingle;
      choice, ran := E.Choice(useBlocks, {}), 0;
      if useBlocks {
        var result, evicted, count := TryExecuteBlock();
        choice, ran := E.Choice(true, evicted), count;
        if result.Some? {
          return result.value, choice, ran;
        }
      }
      err := StepSingleInner();
      ran := ran + 1;
    }
  }

  lemma FenceRetires(raw: u32, len: nat, s: I.State)
    ensures I.Execute(D.Fence, raw, len, s) == I.Retire(s, ToU64(s.hart.pc + len))
  {
  }

  /** Within a chain nothing is compiled, so evictions play no part. */
  lemma {:induction false} EvictionUnused(x: E.Engine, chain: nat, e: set<u64>, f: set<u64>, ran: nat)
    requires 0 < chain < E.MAX_CHAIN_DEPTH
    ensures E.TryBlock(x, chain, e, ran) == E.TryBlock(x, chain, f, ran)
    decreases E.MAX_CHAIN_DEPTH - chain, 1
  {
    hide E.RunChained, K.Compile, I.Fault;
    match E.Lookup(x, x.s.hart.pc)
    case None =>
    case Some(b) => EvictionUnusedRun(x, b, chain, e, f, ran);
  }

  lemma {:induction false} EvictionUnusedRun(x: E.Engine, b: K.Block, chain: nat, e: set<u64>, f: set<u64>, ran: nat)
    requires chain < E.MAX_CHAIN_DEPTH
    ensures E.RunChained(x, b, chain, e, ran) == E.RunChained(x, b, chain, f, ran)
    decreases E.MAX_CHAIN_DEPTH - chain, 0
  {
    hide E.TryBlock, K.RunBlock, K.Steps, T.HandleTrap;
    match K.RunBlock(b, x.s)
    case Continue(u, pc) =>
      if chain + 1 < E.MAX_CHAIN_DEPTH {
        EvictionUnused(x.(s := u.(hart := u.hart.(pc := pc))), chain + 1, e, f, ran + K.Steps(b, 0, x.s));
      }
    case _ =>
  }

  /** The functional outcome with this engine and this result. */
  function OutcomeOf(x: E.Engine, result: Option<Option<Trap>>, ran: nat): E.Outcome {
    match result
    case None => E.Fallback(x, ran)
    case Some(err) => E.Finished(x, err, ran)
  }
}
