/** The one-instruction interpreter: the meaning superblocks have to preserve. */
module Interpreter {
  import opened Base
  import B = Bits
  import opened Memory
  import M = Mmu
  import opened Decoder
  import opened HartState
  import T = Traps

  /** A hart together with its TLB and the memory it sees. */
  datatype State = State(hart: Hart, tlb: M.TlbView, mem: Mem)

  /** State after one step and the trap reported to the caller, if any. */
  datatype Step = Step(next: State, err: Option<Trap>)

  function ContextOf(h: Hart): M.Context {
    M.Context(h.mode, h.csrs[CSR_SATP], h.csrs[CSR_MSTATUS])
  }

  datatype Translated = Translated(s: State, res: Result<u64>)

  function Translate(s: State, addr: u64, access: M.Access): Translated {
    var o := M.Translate(s.tlb, s.mem, ContextOf(s.hart), addr, access);
    Translated(s.(tlb := o.tlb, mem := o.mem), o.res)
  }

  function Fault(s: State, t: Trap): Step {
    Step(s.(hart := T.HandleTrap(s.hart, t, s.hart.pc)), Some(t))
  }

  function Retire(s: State, pc: u64): Step {
    Step(s.(hart := s.hart.(pc := pc)), None)
  }

  function SetReg(s: State, rd: Reg, v: u64): State {
    s.(hart := s.hart.(regs := WriteReg(s.hart.regs, rd, v)))
  }

  // ---- Fetch -----------------------------------------------------------------------------------------

  datatype Fetch = Fetched(s: State, insn: u32, len: nat) | NotFetched(s: State, trap: Trap)

  /** Bus errors on instruction fetch are reported as instruction faults at the instruction's address. */
  function FetchTrap(t: Trap, pc: u64): Trap {
    match t
    case LoadAccessFault(_) => InstructionAccessFault(pc)
    case LoadAddressMisaligned(_) => InstructionAddressMisaligned(pc)
    case _ => t
  }

  function Expanded(s: State, half: u16): Fetch {
    match ExpandCompressed(half)
    case Ok(insn) => Fetched(s, insn, 2)
    case Err(t) => NotFetched(s, t)
  }

  /** Fetch halfword by halfword; the second one is translated on its own. */
  function FetchHalves(s: State, pc: u64): Fetch {
    var low := Translate(s, pc, M.Instruction);
    if low.res.Err? then NotFetched(low.s, low.res.trap)
    else
      var half := Read(low.s.mem, low.res.value, W16);
      if half.Err? then NotFetched(low.s, FetchTrap(half.trap, pc))
      else if half.value % 4 != 3 then Expanded(low.s, half.value)
      else
        var high := Translate(low.s, WrappingAdd(pc, 2), M.Instruction);
        if high.res.Err? then NotFetched(high.s, high.res.trap)
        else
          var rest := Read(high.s.mem, high.res.value, W16);
          if rest.Err? then NotFetched(high.s, FetchTrap(rest.trap, pc))
          else Fetched(high.s, half.value + rest.value * 0x1_0000, 4)
  }

  /** Fetch and expand: a whole word at once where the address allows it and the bus answers. */
  function FetchAndExpand(s: State): Fetch {
    var pc := s.hart.pc;
    if pc % 2 != 0 then NotFetched(s, InstructionAddressMisaligned(pc))
    else if pc % 4 == 0 then
      var at := Translate(s, pc, M.Instruction);
      if at.res.Err? then NotFetched(at.s, at.res.trap)
      else
        match Read(at.s.mem, at.res.value, W32)
        case Ok(word) => if word % 4 != 3 then Expanded(at.s, word % 0x1_0000) else Fetched(at.s, word, 4)
        case Err(_) => FetchHalves(at.s, pc)
    else FetchHalves(s, pc)
  }

  // ---- ALU ---------------------------------------------------------------------------------------------

  function Less(b: bool): u64 {
    if b then 1 else 0
  }

  function Taken(funct3: int, a: u64, b: u64): Option<bool> {
    match funct3
    case 0 => Some(a == b)
    case 1 => Some(a != b)
    case 4 => Some(B.I64(a) < B.I64(b))
    case 5 => Some(B.I64(a) >= B.I64(b))
    case 6 => Some(a < b)
    case 7 => Some(a >= b)
    case _ => None
  }

  function OpImmValue(funct3: int, funct7: int, a: u64, imm: int): Option<u64> {
    match funct3
    case 0 => Some(WrappingAdd(a, ToU64(imm)))
    case 2 => Some(Less(B.I64(a) < imm))
    case 3 => Some(Less(a < ToU64(imm)))
    case 4 => Some(B.Xor(a, ToU64(imm)))
    case 6 => Some(B.Or(a, ToU64(imm)))
    case 7 => Some(B.And(a, ToU64(imm)))
    case 1 => Some(B.Shl(a, imm % 0x40))
    case 5 => if funct7 / 0x20 % 2 == 1 then Some(B.Sar(a, imm % 0x40)) else Some(B.Shr(a, imm % 0x40))
    case _ => None
  }

  const I64_MIN: int := -0x8000_0000_0000_0000
  const I32_MIN: int := -0x8000_0000

  function DivSigned(a: int, b: int): int {
    if b == 0 then -1 else if a == I64_MIN && b == -1 then I64_MIN else B.Quot(a, b)
  }

  function RemSigned(a: int, b: int): int {
    if b == 0 then a else if a == I64_MIN && b == -1 then 0 else B.Rem(a, b)
  }

  function OpValue(funct3: int, funct7: int, a: u64, b: u64): Option<u64> {
    match (funct3, funct7)
    case (0, 0x00) => Some(WrappingAdd(a, b))
    case (0, 0x20) => Some(WrappingSub(a, b))
    case (0, 0x01) => Some(ToU64(B.I64(a) * B.I64(b)))
    case (1, 0x00) => Some(B.Shl(a, b % 0x40))
    case (1, 0x01) => Some(ToU64(B.I64(a) * B.I64(b) / TWO_64))
    case (2, 0x00) => Some(Less(B.I64(a) < B.I64(b)))
    case (2, 0x01) => Some(ToU64(B.I64(a) * b / TWO_64))
    case (3, 0x00) => Some(Less(a < b))
    case (3, 0x01) => Some(ToU64(a * b / TWO_64))
    case (4, 0x00) => Some(B.Xor(a, b))
    case (4, 0x01) => Some(ToU64(DivSigned(B.I64(a), B.I64(b))))
    case (5, 0x00) => Some(B.Shr(a, b % 0x40))
    case (5, 0x01) => Some(ToU64(if b == 0 then TWO_64 - 1 else a / b))
    case (5, 0x20) => Some(B.Sar(a, b % 0x40))
    case (6, 0x00) => Some(B.Or(a, b))
    case (6, 0x01) => Some(ToU64(RemSigned(B.I64(a), B.I64(b))))
    case (7, 0x00) => Some(B.And(a, b))
    case (7, 0x01) => Some(if b == 0 then a else a % b)
    case _ => None
  }

  function OpImm32Value(funct3: int, funct7: int, a: u64, imm: int): Option<u64> {
    match funct3
    case 0 => Some(B.Sext32(WrappingAdd(a, ToU64(imm))))
    case 1 => Some(B.Sext32(B.U32(a) * B.Pow2(imm % 0x20)))
    case 5 =>
      if funct7 / 0x20 % 2 == 1 then Some(ToU64(B.I32(a) / B.Pow2(imm % 0x20)))
      else Some(B.Sext32(B.U32(a) / B.Pow2(imm % 0x20)))
    case _ => None
  }

  /** MULW as the interpreter computes it: a 128-bit product of the sign-extended operands. */
  function MulwWide(a: u64, b: u64): u64 {
    B.Sext32(B.Wrap(B.I32(a) * B.I32(b), 0x1_0000_0000_0000_0000_0000_0000_0000_0000))
  }

  /** DIVW as the interpreter computes it: in 64 bits, then truncated. */
  function DivwWide(a: u64, b: u64): u64 {
    var x, y := B.I32(a), B.I32(b);
    B.Sext32(if y == 0 then -1 else if x == I32_MIN && y == -1 then I32_MIN else B.Quot(x, y))
  }

  function DivuwWide(a: u64, b: u64): u64 {
    var x, y := B.U32(a), B.U32(b);
    B.Sext32(if y == 0 then TWO_64 - 1 else x / y)
  }

  function RemwWide(a: u64, b: u64): u64 {
    var x, y := B.I32(a), B.I32(b);
    B.Sext32(if y == 0 then x else if x == I32_MIN && y == -1 then 0 else B.Rem(x, y))
  }

  function RemuwWide(a: u64, b: u64): u64 {
    var x, y := B.U32(a), B.U32(b);
    B.Sext32(if y == 0 then x else x % y)
  }

  function Op32Value(funct3: int, funct7: int, a: u64, b: u64): Option<u64> {
    match (funct3, funct7)
    case (0, 0x00) => Some(B.Sext32(WrappingAdd(a, b)))
    case (0, 0x20) => Some(B.Sext32(WrappingSub(a, b)))
    case (0, 0x01) => Some(MulwWide(a, b))
    case (1, 0x00) => Some(B.Sext32(B.U32(a) * B.Pow2(b % 0x20)))
    case (5, 0x00) => Some(B.Sext32(B.U32(a) / B.Pow2(b % 0x20)))
    case (4, 0x01) => Some(DivwWide(a, b))
    case (5, 0x20) => Some(ToU64(B.I32(a) / B.Pow2(b % 0x20)))
    case (5, 0x01) => Some(DivuwWide(a, b))
    case (6, 0x01) => Some(RemwWide(a, b))
    case (7, 0x01) => Some(RemuwWide(a, b))
    case _ => None
  }

  // ---- Loads and stores -----------------------------------------------------------------------------------

  /** `v as iN as i64 as u64` for a value of the given width. */
  function SextTo64(v: u64, w: Width): u64 {
    ToU64(Signed(v, Span(w)))
  }

  datatype LoadKind = LoadKind(width: Width, signed: bool)

  function LoadKindOf(funct3: int): Option<LoadKind> {
    match funct3
    case 0 => Some(LoadKind(W8, true))
    case 1 => Some(LoadKind(W16, true))
    case 2 => Some(LoadKind(W32, true))
    case 3 => Some(LoadKind(W64, false))
    case 4 => Some(LoadKind(W8, false))
    case 5 => Some(LoadKind(W16, false))
    case 6 => Some(LoadKind(W32, false))
    case _ => None
  }

  function StoreWidth(funct3: int): Option<Width> {
    match funct3
    case 0 => Some(W8)
    case 1 => Some(W16)
    case 2 => Some(W32)
    case 3 => Some(W64)
    case _ => None
  }

  function ExecLoad(s: State, rd: Reg, rs1: Reg, imm: int, funct3: int, raw: u32, next: u64): Step {
    match LoadKindOf(funct3)
    case None => Fault(s, IllegalInstruction(raw))
    case Some(k) =>
      var addr := WrappingAdd(ReadReg(s.hart.regs, rs1), ToU64(imm));
      var t := Translate(s, addr, M.Load);
      if t.res.Err? then Fault(t.s, t.res.trap) else LoadFrom(t.s, t.res.value, k, rd, next)
  }

  function LoadFrom(s: State, pa: u64, k: LoadKind, rd: Reg, next: u64): Step {
    match Read(s.mem, pa, k.width)
    case Err(e) => Fault(s, e)
    case Ok(v) => Retire(SetReg(s, rd, if k.signed then SextTo64(v, k.width) else v), next)
  }

  /** The reservation is given up before the store is attempted, and even when funct3 is illegal. */
  function ExecStore(s: State, rs1: Reg, rs2: Reg, imm: int, funct3: int, raw: u32, next: u64): Step {
    var addr := WrappingAdd(ReadReg(s.hart.regs, rs1), ToU64(imm));
    var t := Translate(s, addr, M.Store);
    if t.res.Err? then Fault(t.s, t.res.trap)
    else
      var u := t.s.(hart := t.s.hart.(reservation := ClearConflict(t.s.hart.reservation, addr)));
      match StoreWidth(funct3)
      case None => Fault(u, IllegalInstruction(raw))
      case Some(w) =>
        match Write(u.mem, t.res.value, w, ReadReg(u.hart.regs, rs2))
        case Err(e) => Fault(u, e)
        case Ok(m) => Retire(u.(mem := m), next)
  }

  // ---- Atomics ----------------------------------------------------------------------------------------------

  function AmoWidth(funct3: int): Option<Width> {
    match funct3
    case 2 => Some(W32)
    case 3 => Some(W64)
    case _ => None
  }

  /** What a word load leaves in a register. */
  function Widen(v: u64, w: Width): u64 {
    if w == W32 then SextTo64(v, W32) else v
  }

  /** The operand of a signed minimum or maximum. */
  function SignedAt(x: u64, w: Width): int {
    if w == W32 then B.I32(x) else B.I64(x)
  }

  /** New memory value of a read-modify-write, from the widened old value and the register operand. */
  function AmoValue(funct5: int, prev: u64, v: u64, w: Width): Option<u64> {
    match funct5
    case 0x01 => Some(v)
    case 0x00 => Some(WrappingAdd(prev, v))
    case 0x04 => Some(B.Xor(prev, v))
    case 0x08 => Some(B.Or(prev, v))
    case 0x0C => Some(B.And(prev, v))
    case 0x10 => Some(if SignedAt(prev, w) < SignedAt(v, w) then prev else v)
    case 0x14 => Some(if SignedAt(prev, w) > SignedAt(v, w) then prev else v)
    case 0x18 => Some(if prev % Span(w) < v % Span(w) then prev else v)
    case 0x1C => Some(if prev % Span(w) > v % Span(w) then prev else v)
    case _ => None
  }

  function ExecLr(s: State, pa: u64, addr: u64, w: Width, rd: Reg, next: u64): Step {
    match Read(s.mem, pa, w)
    case Err(e) => Fault(s, e)
    case Ok(v) =>
      var u := SetReg(s, rd, Widen(v, w));
      Retire(u.(hart := u.hart.(reservation := Some(Granule(addr)))), next)
  }

  function ExecSc(s: State, pa: u64, addr: u64, w: Width, rd: Reg, rs2: Reg, next: u64): Step {
    if addr % Size(w) != 0 then Fault(s, StoreAddressMisaligned(addr))
    else if s.hart.reservation == Some(Granule(addr)) then
      match Write(s.mem, pa, w, ReadReg(s.hart.regs, rs2))
      case Err(e) => Fault(s, e)
      case Ok(m) =>
        var u := SetReg(s.(mem := m), rd, 0);
        Retire(u.(hart := u.hart.(reservation := None)), next)
    else Retire(SetReg(s, rd, 1), next)
  }

  /** Inside DRAM a refused read-modify-write is reported as a store fault, elsewhere as the load it starts with. */
  function AmoTrap(m: Mem, pa: u64, e: Trap): Trap {
    if m.base <= pa < m.base + m.size then StoreAccessFault(pa) else e
  }

  function ExecRmw(s: State, pa: u64, addr: u64, w: Width, funct5: int, rd: Reg, rs2: Reg, raw: u32, next: u64): Step {
    var v := ReadReg(s.hart.regs, rs2);
    if AmoValue(funct5, 0, v, w).None? then Fault(s, IllegalInstruction(raw))
    else
      var u := s.(hart := s.hart.(reservation := ClearConflict(s.hart.reservation, addr)));
      match Read(u.mem, pa, w)
      case Err(e) => Fault(u, AmoTrap(u.mem, pa, e))
      case Ok(r) =>
        var prev := Widen(r, w);
        match Write(u.mem, pa, w, AmoValue(funct5, prev, v, w).value)
        case Err(e) => Fault(u, AmoTrap(u.mem, pa, e))
        case Ok(m) => Retire(SetReg(u.(mem := m), rd, prev), next)
  }

  /** LR, SC and the read-modify-writes; all of them translate as loads, before the width is checked. */
  function ExecAmo(s: State, rd: Reg, rs1: Reg, rs2: Reg, funct3: int, funct5: int, raw: u32, next: u64): Step {
    var addr := ReadReg(s.hart.regs, rs1);
    var t := Translate(s, addr, M.Load);
    if t.res.Err? then Fault(t.s, t.res.trap)
    else
      match AmoWidth(funct3)
      case None => Fault(t.s, IllegalInstruction(raw))
      case Some(w) =>
        if funct5 == 0x02 then ExecLr(t.s, t.res.value, addr, w, rd, next)
        else if funct5 == 0x03 then ExecSc(t.s, t.res.value, addr, w, rd, rs2, next)
        else ExecRmw(t.s, t.res.value, addr, w, funct5, rd, rs2, raw, next)
  }

  // ---- System -------------------------------------------------------------------------------------------------

  const MTIME: u64 := 0x0200_BFF8

  predicate IsSfenceVma(raw: u32) {
    raw / 0x200_0000 == 9 && raw / 0x1000 % 8 == 0 && raw % 0x80 == 0x73
  }

  function ExecPrivileged(s: State, raw: u32, next: u64): Step {
    if IsSfenceVma(raw) then
      if s.hart.mode == User then Fault(s, IllegalInstruction(raw))
      else Retire(s.(tlb := M.Flushed(s.tlb)), next)
    else if raw == 0x0010_0073 then Fault(s, Breakpoint)
    else if raw == 0x1050_0073 then Fault(s, Wfi)
    else if raw == 0x0000_0073 then
      Fault(s, match s.hart.mode
               case User => EnvironmentCallFromU
               case Supervisor => EnvironmentCallFromS
               case Machine => EnvironmentCallFromM)
    else if raw == 0x3020_0073 then
      if s.hart.mode != Machine then Fault(s, IllegalInstruction(raw))
      else Step(s.(hart := T.Mret(s.hart)), None)
    else if raw == 0x1020_0073 then
      if s.hart.mode != Supervisor then Fault(s, IllegalInstruction(raw))
      else Step(s.(hart := T.Sret(s.hart)), None)
    else Fault(s, IllegalInstruction(raw))
  }

  /** The value a CSR instruction writes, if it writes at all. */
  function CsrNew(funct3: int, rs1: Reg, v: u64, prev: u64): Option<u64> {
    match funct3
    case 1 => Some(v)
    case 2 => if rs1 != 0 then Some(B.Or(prev, v)) else None
    case 3 => if rs1 != 0 then Some(B.And(prev, B.Not(v))) else None
    case 5 => Some(rs1)
    case 6 => if rs1 != 0 then Some(B.Or(prev, rs1)) else None
    case 7 => if rs1 != 0 then Some(B.And(prev, B.Not(rs1))) else None
    case _ => None
  }

  function CsrOld(s: State, csr: CsrAddr): Result<u64> {
    if csr == CSR_TIME then
      match Read(s.mem, MTIME, W64)
      case Ok(v) => Ok(v)
      case Err(_) => Ok(0)
    else CsrRead(s.hart.csrs, csr, s.hart.mode)
  }

  function ExecCsr(s: State, rd: Reg, rs1: Reg, funct3: int, csr: CsrAddr, next: u64): Step {
    var prev := CsrOld(s, csr);
    if prev.Err? then Fault(s, prev.trap)
    else
      match CsrNew(funct3, rs1, ReadReg(s.hart.regs, rs1), prev.value)
      case None => Retire(SetReg(s, rd, prev.value), next)
      case Some(v) =>
        match CsrWrite(s.hart.csrs, csr, v, s.hart.mode)
        case Err(e) => Fault(s, e)
        case Ok(c) =>
          var u := s.(hart := s.hart.(csrs := c));
          var w := if csr == CSR_SATP then u.(tlb := M.Flushed(u.tlb)) else u;
          Retire(SetReg(w, rd, prev.value), next)
  }

  function ExecSystem(s: State, rd: Reg, rs1: Reg, funct3: int, imm: int, raw: u32, next: u64): Step {
    if funct3 == 0 then ExecPrivileged(s, raw, next)
    else if funct3 == 4 || !(0 < funct3 < 8) then Fault(s, IllegalInstruction(raw))
    else ExecCsr(s, rd, rs1, funct3, imm % 0x1000, next)
  }

  // ---- One instruction ------------------------------------------------------------------------------------------

  function Finish(s: State, rd: Reg, v: Option<u64>, raw: u32, next: u64): Step {
    match v
    case None => Fault(s, IllegalInstruction(raw))
    case Some(x) => Retire(SetReg(s, rd, x), next)
  }

  function Jump(s: State, target: u64): Step {
    if target % 2 != 0 then Fault(s, InstructionAddressMisaligned(target)) else Retire(s, target)
  }

  function Execute(op: Op, raw: u32, len: nat, s: State): Step {
    var pc := s.hart.pc;
    var next := ToU64(pc + len);
    var r := s.hart.regs;
    match op
    case Lui(rd, imm) => Retire(SetReg(s, rd, ToU64(imm)), next)
    case Auipc(rd, imm) => Retire(SetReg(s, rd, WrappingAdd(pc, ToU64(imm))), next)
    case Jal(rd, imm) => Jump(SetReg(s, rd, next), WrappingAdd(pc, ToU64(imm)))
    case Jalr(rd, rs1, imm) =>
      var sum := WrappingAdd(ReadReg(r, rs1), ToU64(imm));
      Jump(SetReg(s, rd, next), sum - sum % 2)
    case Branch(rs1, rs2, imm, funct3) =>
      (match Taken(funct3, ReadReg(r, rs1), ReadReg(r, rs2))
       case None => Fault(s, IllegalInstruction(raw))
       case Some(taken) => if taken then Jump(s, WrappingAdd(pc, ToU64(imm))) else Retire(s, next))
    case Load(rd, rs1, imm, funct3) => ExecLoad(s, rd, rs1, imm, funct3, raw, next)
    case Store(rs1, rs2, imm, funct3) => ExecStore(s, rs1, rs2, imm, funct3, raw, next)
    case OpImm(rd, rs1, imm, funct3, funct7) =>
      Finish(s, rd, OpImmValue(funct3, funct7, ReadReg(r, rs1), imm), raw, next)
    case OpReg(rd, rs1, rs2, funct3, funct7) =>
      Finish(s, rd, OpValue(funct3, funct7, ReadReg(r, rs1), ReadReg(r, rs2)), raw, next)
    case OpImm32(rd, rs1, imm, funct3, funct7) =>
      Finish(s, rd, OpImm32Value(funct3, funct7, ReadReg(r, rs1), imm), raw, next)
    case OpReg32(rd, rs1, rs2, funct3, funct7) =>
      Finish(s, rd, Op32Value(funct3, funct7, ReadReg(r, rs1), ReadReg(r, rs2)), raw, next)
    case System(rd, rs1, funct3, imm) => ExecSystem(s, rd, rs1, funct3, imm, raw, next)
    case Amo(rd, rs1, rs2, funct3, funct5, _, _) => ExecAmo(s, rd, rs1, rs2, funct3, funct5, raw, next)
    case Fence => Retire(s, next)
  }

  /** Fetch, decode and execute the instruction at pc. */
  function StepSingle(s: State): Step {
    match FetchAndExpand(s)
    case NotFetched(u, t) => Fault(u, t)
    case Fetched(u, insn, len) =>
      match Decode(insn)
      case Err(t) => Fault(u, t)
      case Ok(op) => Execute(op, insn, len, u)
  }
}
