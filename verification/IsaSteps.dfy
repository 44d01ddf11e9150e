/** What executing an instruction does to registers, memory and control registers, in the terms of the RISC-V
    ISA: for the interpreter, and for the operations of a block. */
module IsaSteps {
  import opened Base
  import B = Bits
  import opened BitLaws
  import opened Arithmetic
  import D = Decoder
  import opened HartState
  import Micro
  import I = Interpreter
  import K = Block
  import A = MicroAgreement

  // ---- Registers -----------------------------------------------------------------------------------------------

  /** Register `k`; register 0 is always 0. */
  function X(r: Regs, k: D.Reg): u64 {
    if k == 0 then 0 else r[k]
  }

  /** Only register `rd` may have changed. */
  ghost predicate OnlyRd(before: Regs, after: Regs, rd: D.Reg) {
    forall k: nat :: k < 32 && (k != rd || k == 0) ==> after[k] == before[k]
  }

  /** `v` is `x` modulo 2 to the 64. */
  predicate Same64(v: u64, x: int) {
    (v - x) % TWO_64 == 0
  }

  // ---- Computations ----------------------------------------------------------------------------------------------

  /** Operations of OP by funct3 and funct7. */
  function OperationOf(f3: int, f7: int): Option<Operation> {
    match (f3, f7)
    case (0, 0x00) => Some(Add)
    case (0, 0x20) => Some(Sub)
    case (1, 0x00) => Some(Sll)
    case (2, 0x00) => Some(Slt)
    case (3, 0x00) => Some(Sltu)
    case (4, 0x00) => Some(Xor)
    case (5, 0x00) => Some(Srl)
    case (5, 0x20) => Some(Sra)
    case (6, 0x00) => Some(Or)
    case (7, 0x00) => Some(And)
    case (0, 0x01) => Some(Mul)
    case (1, 0x01) => Some(Mulh)
    case (2, 0x01) => Some(Mulhsu)
    case (3, 0x01) => Some(Mulhu)
    case (4, 0x01) => Some(Div)
    case (5, 0x01) => Some(Divu)
    case (6, 0x01) => Some(Rem)
    case (7, 0x01) => Some(Remu)
    case _ => None
  }

  /** Operations of OP-32. */
  function WordOperationOf(f3: int, f7: int): Option<Operation> {
    match (f3, f7)
    case (0, 0x00) => Some(Add)
    case (0, 0x20) => Some(Sub)
    case (1, 0x00) => Some(Sll)
    case (5, 0x00) => Some(Srl)
    case (5, 0x20) => Some(Sra)
    case (0, 0x01) => Some(Mul)
    case (4, 0x01) => Some(Div)
    case (5, 0x01) => Some(Divu)
    case (6, 0x01) => Some(Rem)
    case (7, 0x01) => Some(Remu)
    case _ => None
  }

  /** Operations of OP-IMM and OP-IMM-32; bit 5 of funct7, instruction bit 30, tells the right shifts apart. */
  function ImmOperationOf(f3: int, f7: nat): Option<Operation> {
    match f3
    case 0 => Some(Add)
    case 1 => Some(Sll)
    case 2 => Some(Slt)
    case 3 => Some(Sltu)
    case 4 => Some(Xor)
    case 5 => Some(if B.Bit(f7, 5) then Sra else Srl)
    case 6 => Some(Or)
    case 7 => Some(And)
    case _ => None
  }

  predicate IsComputation(op: D.Op) {
    op.Lui? || op.Auipc? || op.OpImm? || op.OpReg? || op.OpImm32? || op.OpReg32?
  }

  /** `v` is what the instruction at `pc` computes from these registers. */
  ghost predicate Computes(op: D.Op, pc: u64, r: Regs, v: u64)
    requires IsComputation(op) && ShortImmediate(op)
  {
    match op
    case Lui(_, imm) => Same64(v, imm)
    case Auipc(_, imm) => Same64(v, pc + imm)
    case OpImm(_, rs1, imm, f3, f7) =>
      f7 >= 0 && ImmOperationOf(f3, f7).Some? && Results(ImmOperationOf(f3, f7).value, X(r, rs1), ToU64(imm), v)
    case OpImm32(_, rs1, imm, f3, f7) =>
      f7 >= 0 && ImmOperationOf(f3, f7).Some? && WordResults(ImmOperationOf(f3, f7).value, X(r, rs1), ToU64(imm), v)
    case OpReg(_, rs1, rs2, f3, f7) =>
      OperationOf(f3, f7).Some? && Results(OperationOf(f3, f7).value, X(r, rs1), X(r, rs2), v)
    case OpReg32(_, rs1, rs2, f3, f7) =>
      WordOperationOf(f3, f7).Some? && WordResults(WordOperationOf(f3, f7).value, X(r, rs1), X(r, rs2), v)
  }

  /** Immediates of these instructions have 12 bits, function fields 7. */
  predicate ShortImmediate(op: D.Op) {
    && (op.OpImm? || op.OpImm32? ==> -0x800 <= op.imm < 0x800 && 0 <= op.funct7 < 0x80)
  }

  // ---- Values -------------------------------------------------------------------------------------------------------

  lemma SmallImmediate(imm: int)
    requires -0x800 <= imm < 0x800
    ensures B.I64(ToU64(imm)) == imm && Signed64(ToU64(imm)) == imm
    ensures ToU64(imm) % 0x40 == imm % 0x40 && ToU64(imm) % 0x20 == imm % 0x20
  {
    hide Signed64, ToU64, B.I64;
    SmallWraps(imm);
    SignedIs(ToU64(imm));
    if imm < 0 {
      WrapsOnce(imm);
      ModuloOfSum(imm);
    } else {
      WrapsNot(imm);
    }
  }

  lemma ModuloOfSum(x: int)
    ensures (x + TWO_64) % 0x40 == x % 0x40 && (x + TWO_64) % 0x20 == x % 0x20
  {
  }

  lemma Bit5(f7: nat)
    requires f7 < 0x80
    ensures B.Bit(f7, 5) <==> f7 / 0x20 % 2 == 1
  {
    SmallPowers();
    BitAt(f7, 5);
    hide B.Bit;
  }

  lemma ImmComputes(f3: int, f7: nat, a: u64, imm: int)
    requires 0 <= f3 < 8 && f7 < 0x80 && -0x800 <= imm < 0x800
    ensures I.OpImmValue(f3, f7, a, imm).Some? && ImmOperationOf(f3, f7).Some?
    ensures Results(ImmOperationOf(f3, f7).value, a, ToU64(imm), I.OpImmValue(f3, f7, a, imm).value)
  {
    hide Results, B.Bit, B.Xor, B.Or, B.And, B.Shl, B.Shr, B.Sar, B.I64, ToU64, WrappingAdd, Signed64;
    SmallImmediate(imm);
    Bit5(f7);
    SumResults(a, ToU64(imm));
    ShiftResults(a, ToU64(imm));
    CompareResults(a, ToU64(imm));
    LogicResults(a, ToU64(imm));
  }

  lemma SignedCorners(a: u64, b: u64)
    ensures B.I64(a) == -0x8000_0000_0000_0000 <==> a == 0x8000_0000_0000_0000
    ensures B.I64(b) == -1 <==> b == TWO_64 - 1
    ensures B.I64(b) == 0 <==> b == 0
  {
  }

  lemma RegComputes(f3: int, f7: int, a: u64, b: u64)
    requires A.LegalOpReg(f3, f7)
    ensures I.OpValue(f3, f7, a, b).Some? && OperationOf(f3, f7).Some?
    ensures Results(OperationOf(f3, f7).value, a, b, I.OpValue(f3, f7, a, b).value)
  {
    hide Results, B.Xor, B.Or, B.And, B.Shl, B.Shr, B.Sar, B.I64, ToU64, WrappingAdd, WrappingSub, B.Quot, B.Rem;
    if f7 == 1 {
      MulDivComputes(f3, a, b);
    } else {
      SumResults(a, b);
      ShiftResults(a, b);
      CompareResults(a, b);
      LogicResults(a, b);
    }
  }

  lemma MulDivComputes(f3: int, a: u64, b: u64)
    requires 0 <= f3 < 8
    ensures I.OpValue(f3, 1, a, b).Some? && OperationOf(f3, 1).Some?
    ensures Results(OperationOf(f3, 1).value, a, b, I.OpValue(f3, 1, a, b).value)
  {
    hide Results, B.I64, B.Quot, B.Rem, ToU64;
    MulResults(a, b);
    DivResults(a, b);
    DivuResults(a, b);
    SignedCorners(a, b);
    if b != 0 {
      QuotientWord(a, b);
    }
    LastWord();
  }

  lemma QuotientWord(a: u64, b: u64)
    requires b != 0
    ensures 0 <= a / b < TWO_64 && ToU64(a / b) == a / b
  {
    QuotSmaller(a, b);
    WrapsNot(a / b);
  }

  lemma LastWord()
    ensures ToU64(TWO_64 - 1) == TWO_64 - 1
  {
  }

  lemma Imm32Computes(f3: int, f7: nat, a: u64, imm: int)
    requires (f3 == 0 || f3 == 1 || f3 == 5) && f7 < 0x80 && -0x800 <= imm < 0x800
    ensures I.OpImm32Value(f3, f7, a, imm).Some? && ImmOperationOf(f3, f7).Some?
    ensures WordResults(ImmOperationOf(f3, f7).value, a, ToU64(imm), I.OpImm32Value(f3, f7, a, imm).value)
  {
    hide WordResults, B.Bit, B.Sext32, B.U32, B.I32, B.Pow2, ToU64, WrappingAdd, Signed64, B.I64;
    SmallImmediate(imm);
    Bit5(f7);
    WordSumResults(a, ToU64(imm));
    WordShiftResults(a, ToU64(imm));
  }

  lemma Reg32Computes(f3: int, f7: int, a: u64, b: u64)
    requires A.LegalOpReg32(f3, f7)
    ensures I.Op32Value(f3, f7, a, b).Some? && WordOperationOf(f3, f7).Some?
    ensures WordResults(WordOperationOf(f3, f7).value, a, b, I.Op32Value(f3, f7, a, b).value)
  {
    hide WordResults, B.Sext32, B.U32, B.I32, B.Pow2, ToU64, WrappingAdd, WrappingSub, B.Quot, B.Rem, B.Wrap;
    WordSumResults(a, b);
    WordShiftResults(a, b);
    WordMulResults(a, b);
    WordDivResults(a, b);
    WordDivuResults(a, b);
    NoWrap(B.I32(a), B.I32(b));
  }

  /** The 128-bit product of two words does not wrap around. */
  lemma NoWrap(x: int, y: int)
    requires -0x8000_0000 <= x < 0x8000_0000 && -0x8000_0000 <= y < 0x8000_0000
    ensures B.Wrap(x * y, 0x1_0000_0000_0000_0000_0000_0000_0000_0000) == x * y
  {
    ProductBound(x, y, 0x8000_0000, 0x8000_0000);
    InRange(x * y);
  }

  lemma InRange(p: int)
    requires -0x4000_0000_0000_0000 <= p <= 0x4000_0000_0000_0000
    ensures B.Wrap(p, 0x1_0000_0000_0000_0000_0000_0000_0000_0000) == p
  {
  }

  // ---- Steps --------------------------------------------------------------------------------------------------------

  /** The value a computation writes, as the interpreter has it. */
  function Value(op: D.Op, pc: u64, r: Regs): Option<u64>
    requires IsComputation(op)
  {
    match op
    case Lui(_, imm) => Some(ToU64(imm))
    case Auipc(_, imm) => Some(WrappingAdd(pc, ToU64(imm)))
    case _ => A.ComputedValue(op, r)
  }

  lemma ValueComputes(op: D.Op, pc: u64, r: Regs)
    requires IsComputation(op) && ShortImmediate(op) && A.Legal(op)
    ensures Value(op, pc, r).Some? && Computes(op, pc, r, Value(op, pc, r).value)
  {
    hide Results, WordResults, I.OpImmValue, I.OpValue, I.OpImm32Value, I.Op32Value, A.LegalOpReg, A.LegalOpReg32,
      OperationOf, WordOperationOf, ImmOperationOf;
    match op
    case Lui(_, imm) => WrapSame(imm);
    case Auipc(_, imm) =>
      WrapSame(imm);
      WrapSame(pc + ToU64(imm));
      SumSame(pc, imm);
    case OpImm(_, rs1, imm, f3, f7) => ImmComputes(f3, f7, ReadReg(r, rs1), imm);
    case OpReg(_, rs1, rs2, f3, f7) => RegComputes(f3, f7, ReadReg(r, rs1), ReadReg(r, rs2));
    case OpImm32(_, rs1, imm, f3, f7) => Imm32Computes(f3, f7, ReadReg(r, rs1), imm);
    case OpReg32(_, rs1, rs2, f3, f7) => Reg32Computes(f3, f7, ReadReg(r, rs1), ReadReg(r, rs2));
  }

  lemma WrapSame(x: int)
    ensures Same64(ToU64(x), x)
  {
  }

  lemma SumSame(pc: u64, imm: int)
    ensures Same64(WrappingAdd(pc, ToU64(imm)), pc + imm)
  {
  }

  /** Every legal computation, interpreted: the destination holds what the ISA says, the other registers and
      everything else stay, and the pc moves past the instruction. */
  lemma InterpreterComputes(op: D.Op, raw: u32, len: nat, s: I.State)
    requires IsComputation(op) && ShortImmediate(op) && A.Legal(op)
    ensures var e := I.Execute(op, raw, len, s);
            && e.err == None
            && e.next == s.(hart := s.hart.(regs := e.next.hart.regs, pc := e.next.hart.pc))
            && Same64(e.next.hart.pc, s.hart.pc + len)
            && OnlyRd(s.hart.regs, e.next.hart.regs, op.rd)
            && (op.rd != 0 ==> Computes(op, s.hart.pc, s.hart.regs, e.next.hart.regs[op.rd]))
  {
    hide Computes, I.OpImmValue, I.OpValue, I.OpImm32Value, I.Op32Value, ToU64, WrappingAdd, A.Legal;
    ValueComputes(op, s.hart.pc, s.hart.regs);
    WrapSame(s.hart.pc + len);
    assert I.Execute(op, raw, len, s)
        == I.Retire(I.SetReg(s, op.rd, Value(op, s.hart.pc, s.hart.regs).value), ToU64(s.hart.pc + len));
  }

  /** The same for the operation the compiler makes of it. */
  lemma BlockComputes(op: D.Op, off: nat, len: nat, base: u64, s: I.State)
    requires IsComputation(op) && ShortImmediate(op) && A.Legal(op) && s.hart.regs[0] == 0
    ensures var o := K.MicroStep(Micro.Transcode(op, off, len), base, s);
            && o.Next? && o.s == s.(hart := s.hart.(regs := o.s.hart.regs))
            && OnlyRd(s.hart.regs, o.s.hart.regs, op.rd)
            && (op.rd != 0 ==> Computes(op, ToU64(base + off), s.hart.regs, o.s.hart.regs[op.rd]))
  {
    hide Computes, I.OpImmValue, I.OpValue, I.OpImm32Value, I.Op32Value, ToU64, WrappingAdd, A.Legal;
    ValueComputes(op, ToU64(base + off), s.hart.regs);
    if op.Lui? || op.Auipc? {
      UpperWrites(op, off, len, base, s);
    } else {
      A.AluAgrees(op, off, len, base, s.hart.regs);
      hide Micro.Transcode;
    }
  }

  lemma UpperWrites(op: D.Op, off: nat, len: nat, base: u64, s: I.State)
    requires op.Lui? || op.Auipc?
    ensures K.MicroStep(Micro.Transcode(op, off, len), base, s)
         == K.Next(I.SetReg(s, op.rd, Value(op, ToU64(base + off), s.hart.regs).value))
  {
    hide ToU64, WrappingAdd;
  }

  // ---- Jumps and branches -------------------------------------------------------------------------------------------

  /** The condition of a branch by funct3. */
  ghost predicate BranchTaken(f3: int, a: u64, b: u64) {
    match f3
    case 0 => a == b
    case 1 => a != b
    case 4 => Signed64(a) < Signed64(b)
    case 5 => Signed64(a) >= Signed64(b)
    case 6 => a < b
    case 7 => a >= b
    case _ => false
  }

  /** Jumps link and go to their target, with bit 0 cleared for JALR; branches go to their target exactly if
      the condition holds. */
  lemma InterpreterTransfers(op: D.Op, raw: u32, len: nat, s: I.State)
    requires A.Legal(op) && (op.Jal? || op.Jalr? || op.Branch?)
    requires (op.Jal? || op.Branch? ==> op.imm % 2 == 0) && s.hart.pc % 2 == 0
    ensures var e := I.Execute(op, raw, len, s);
            var r, u := s.hart.regs, e.next.hart;
            && e.err == None && e.next == s.(hart := s.hart.(regs := u.regs, pc := u.pc))
            && (op.Branch? ==>
                  && u.regs == r
                  && Same64(u.pc, s.hart.pc + if BranchTaken(op.funct3, X(r, op.rs1), X(r, op.rs2)) then op.imm
                            else len))
            && (op.Jal? || op.Jalr? ==>
                  && OnlyRd(r, u.regs, op.rd) && (op.rd != 0 ==> Same64(u.regs[op.rd], s.hart.pc + len)))
            && (op.Jal? ==> Same64(u.pc, s.hart.pc + op.imm))
            && (op.Jalr? ==> u.pc % 2 == 0
                             && (Same64(u.pc, X(r, op.rs1) + op.imm) || Same64(u.pc + 1, X(r, op.rs1) + op.imm)))
  {
    hide ToU64, WrappingAdd, B.I64, Signed64, I.Fault;
    WrapSame(s.hart.pc + len);
    if op.Branch? {
      SignedIs(X(s.hart.regs, op.rs1));
      SignedIs(X(s.hart.regs, op.rs2));
      SumSame(s.hart.pc, op.imm);
      A.EvenTarget(s.hart.pc, op.imm);
    } else if op.Jal? {
      SumSame(s.hart.pc, op.imm);
      A.EvenTarget(s.hart.pc, op.imm);
    } else {
      SumSame(X(s.hart.regs, op.rs1), op.imm);
      ClearBit0(WrappingAdd(X(s.hart.regs, op.rs1), ToU64(op.imm)));
    }
  }

  lemma ClearBit0(x: u64)
    ensures (x - x % 2) % 2 == 0
  {
  }
}
