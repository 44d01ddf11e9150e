/** Each micro-operation does to a hart what the interpreter does for the instruction it came from. */
module MicroAgreement {
  import opened Base
  import B = Bits
  import opened Memory
  import M = Mmu
  import D = Decoder
  import opened HartState
  import Micro
  import T = Traps
  import I = Interpreter
  import K = Block

  // ---- Word arithmetic at different widths ---------------------------------------------------------

  lemma SameLowWord(x: int, y: int, q: int)
    requires y == x + TWO_32 * q
    ensures B.I32(y) == B.I32(x)
  {
  }

  lemma I32InRange(x: int)
    requires -0x8000_0000 <= x < 0x8000_0000
    ensures B.I32(x) == x
  {
  }

  lemma I32OfWrap64(x: int)
    ensures B.I32(B.Wrap(x, TWO_64)) == B.I32(x)
  {
    var w := B.Wrap(x, TWO_64);
    var q := if x % TWO_64 >= TWO_64 / 2 then -(x / TWO_64) - 1 else -(x / TWO_64);
    assert w == x + TWO_64 * q;
    SameLowWord(x, w, TWO_32 * q);
  }

  lemma I32OfWrap128(x: int)
    ensures B.I32(B.Wrap(x, 0x1_0000_0000_0000_0000_0000_0000_0000_0000)) == B.I32(x)
  {
    var m := 0x1_0000_0000_0000_0000_0000_0000_0000_0000;
    var w := B.Wrap(x, m);
    var q := if x % m >= m / 2 then -(x / m) - 1 else -(x / m);
    assert w == x + m * q;
    SameLowWord(x, w, 0x1_0000_0000_0000_0000_0000_0000 * q);
  }

  /** MULW: the 64-bit and the 128-bit product have the same low word. */
  lemma MulwAgrees(a: u64, b: u64)
    ensures K.MulwNarrow(a, b) == I.MulwWide(a, b)
  {
    I32OfWrap64(B.I32(a) * B.I32(b));
    I32OfWrap128(B.I32(a) * B.I32(b));
  }

  lemma QuotBound(x: int, y: int)
    requires y != 0
    ensures -B.Abs(x) <= B.Quot(x, y) <= B.Abs(x)
    ensures y != 1 && y != -1 ==> 2 * B.Abs(B.Quot(x, y)) <= B.Abs(x)
    ensures y == 1 ==> B.Quot(x, y) == x
    ensures y == -1 ==> B.Quot(x, y) == -x
  {
    var n, d := B.Abs(x), B.Abs(y);
    DivBound(n, d);
    assert d == 1 ==> n / d == n;
  }

  lemma DivBound(n: nat, d: nat)
    requires d > 0
    ensures 0 <= n / d <= n
    ensures d > 1 ==> 2 * (n / d) <= n
  {
    Multiple(d, n / d);
    if d > 1 {
      Multiple(d - 1, n / d);
    }
  }

  lemma {:induction false} Multiple(d: nat, q: nat)
    requires d > 0
    ensures d * q == (d - 1) * q + q && d * q >= q
  {
    if d > 1 {
      Multiple(d - 1, q);
    }
  }

  /** DIVW: truncating a 64-bit quotient loses nothing, because the overflowing case is set apart. */
  lemma DivwAgrees(a: u64, b: u64)
    ensures K.DivwNarrow(a, b) == I.DivwWide(a, b)
  {
    var x, y := B.I32(a), B.I32(b);
    if y == 0 {
      I32InRange(-1);
    } else if x == I.I32_MIN && y == -1 {
      I32InRange(I.I32_MIN);
    } else {
      QuotBound(x, y);
      I32InRange(B.Quot(x, y));
    }
  }

  lemma RemwAgrees(a: u64, b: u64)
    ensures K.RemwNarrow(a, b) == I.RemwWide(a, b)
  {
    var x, y := B.I32(a), B.I32(b);
    if y == 0 {
      I32InRange(x);
    } else if x == I.I32_MIN && y == -1 {
      I32InRange(0);
    } else {
      assert B.Abs(B.Rem(x, y)) < B.Abs(y);
      I32InRange(B.Rem(x, y));
    }
  }

  lemma DivuwAgrees(a: u64, b: u64)
    ensures K.DivuwNarrow(a, b) == I.DivuwWide(a, b)
  {
    SameLowWord(TWO_32 - 1, TWO_64 - 1, TWO_32 - 1);
  }

  /** ADDIW: only the low word of the immediate matters. */
  lemma AddiwAgrees(a: u64, imm: int)
    ensures B.Sext32(WrappingAdd(a, ToU64(B.I32(imm)))) == B.Sext32(WrappingAdd(a, ToU64(imm)))
  {
    SumLowWord(a, imm);
    SumLowWord(a, B.I32(imm));
    var q := if imm % TWO_32 >= TWO_32 / 2 then -(imm / TWO_32) - 1 else -(imm / TWO_32);
    assert B.I32(imm) == imm + TWO_32 * q;
    SameLowWord(a + imm, a + B.I32(imm), q);
  }

  lemma SumLowWord(a: u64, imm: int)
    ensures B.I32(WrappingAdd(a, ToU64(imm))) == B.I32(a + imm)
  {
    var s := WrappingAdd(a, ToU64(imm));
    assert ToU64(imm) == imm - TWO_64 * (imm / TWO_64);
    assert s == a + ToU64(imm) - TWO_64 * ((a + ToU64(imm)) / TWO_64);
    SameLowWord(a + imm, s, -TWO_32 * (imm / TWO_64) - TWO_32 * ((a + ToU64(imm)) / TWO_64));
  }

  // ---- Legal function fields ----------------------------------------------------------------------------

  predicate LegalOpReg(funct3: int, funct7: int) {
    || (funct7 == 0x00 && 0 <= funct3 < 8)
    || (funct7 == 0x01 && 0 <= funct3 < 8)
    || (funct7 == 0x20 && (funct3 == 0 || funct3 == 5))
  }

  predicate LegalOpReg32(funct3: int, funct7: int) {
    || (funct7 == 0x00 && (funct3 == 0 || funct3 == 1 || funct3 == 5))
    || (funct7 == 0x01 && (funct3 == 0 || funct3 == 4 || funct3 == 5 || funct3 == 6 || funct3 == 7))
    || (funct7 == 0x20 && (funct3 == 0 || funct3 == 5))
  }

  /** The function fields the two sides agree on.  Every other encoding is a no-op in a block. */
  predicate Legal(op: D.Op) {
    match op
    case Branch(_, _, _, f3) => f3 == 0 || f3 == 1 || 4 <= f3 < 8
    case Load(_, _, _, f3) => 0 <= f3 < 7
    case Store(_, _, _, f3) => 0 <= f3 < 4
    case OpImm(_, _, _, f3, _) => 0 <= f3 < 8
    case OpReg(_, _, _, f3, f7) => LegalOpReg(f3, f7)
    case OpImm32(_, _, _, f3, _) => f3 == 0 || f3 == 1 || f3 == 5
    case OpReg32(_, _, _, f3, f7) => LegalOpReg32(f3, f7)
    case System(_, _, f3, imm) =>
      if f3 == 0 then imm == 0 || imm == 1 || imm == 0x302 || imm == 0x102 || imm == 0x105 || imm / 0x20 % 0x80 == 9
      else 0 < f3 < 8 && f3 != 4
    case Amo(_, _, _, _, f5, _, _) =>
      f5 < 0x20 && (f5 == 0 || f5 == 1 || f5 == 2 || f5 == 3 || (f5 > 0 && f5 % 4 == 0))
    case _ => true
  }

  /** Exactly the illegal encodings become no-ops. */
  lemma LegalMeansNotDropped(op: D.Op, off: nat, len: nat)
    ensures Legal(op) <==> (op.Fence? || !Micro.Transcode(op, off, len).Fence?)
  {
  }

  // ---- Computation -----------------------------------------------------------------------------------------

  /** The interpreter's register write for an instruction that only computes. */
  function ComputedValue(op: D.Op, r: Regs): Option<u64> {
    match op
    case OpImm(_, rs1, imm, f3, f7) => I.OpImmValue(f3, f7, ReadReg(r, rs1), imm)
    case OpReg(_, rs1, rs2, f3, f7) => I.OpValue(f3, f7, ReadReg(r, rs1), ReadReg(r, rs2))
    case OpImm32(_, rs1, imm, f3, f7) => I.OpImm32Value(f3, f7, ReadReg(r, rs1), imm)
    case OpReg32(_, rs1, rs2, f3, f7) => I.Op32Value(f3, f7, ReadReg(r, rs1), ReadReg(r, rs2))
    case _ => None
  }

  /** Does `m` compute exactly this register write? */
  predicate Computes(m: Micro.MicroOp, base: u64, r: Regs, rd: D.Reg, v: Option<u64>) {
    v.Some? && Micro.KindOf(m) == Micro.Compute && K.AluWrite(m, base, r) == K.RegWrite(rd, v.value)
  }

  /** Both ALUs compute the same register write, although blocks read x0 as a register. */
  lemma AluAgrees(op: D.Op, off: nat, len: nat, base: u64, r: Regs)
    requires Legal(op) && r[0] == 0
    requires op.OpImm? || op.OpReg? || op.OpImm32? || op.OpReg32?
    ensures Computes(Micro.Transcode(op, off, len), base, r, op.rd, ComputedValue(op, r))
  {
    match op
    case OpImm(rd, rs1, imm, f3, f7) =>
      OpImmAgrees(rd, rs1, imm, f3, f7, base, r);
    case OpReg(rd, rs1, rs2, f3, f7) =>
      OpRegAgrees(rd, rs1, rs2, f3, f7, base, r);
    case OpImm32(rd, rs1, imm, f3, f7) =>
      OpImm32Agrees(rd, rs1, imm, f3, f7, base, r);
    case OpReg32(rd, rs1, rs2, f3, f7) =>
      OpReg32Agrees(rd, rs1, rs2, f3, f7, base, r);
  }

  lemma OpImmAgrees(rd: D.Reg, rs1: D.Reg, imm: int, f3: int, f7: int, base: u64, r: Regs)
    requires 0 <= f3 < 8 && r[0] == 0
    ensures Computes(Micro.TranscodeOpImm(rd, rs1, imm, f3, f7), base, r, rd,
                     I.OpImmValue(f3, f7, ReadReg(r, rs1), imm))
  {
    hide B.And, B.Or, B.Xor, B.Shl, B.Shr, B.Sar, B.I64, WrappingAdd, ToU64;
    assert ReadReg(r, rs1) == r[rs1];
  }

  lemma OpRegAgrees(rd: D.Reg, rs1: D.Reg, rs2: D.Reg, f3: int, f7: int, base: u64, r: Regs)
    requires LegalOpReg(f3, f7) && r[0] == 0
    ensures Computes(Micro.TranscodeOp(rd, rs1, rs2, f3, f7), base, r, rd,
                     I.OpValue(f3, f7, ReadReg(r, rs1), ReadReg(r, rs2)))
  {
    hide B.And, B.Or, B.Xor, B.Shl, B.Shr, B.Sar, B.I64, B.Quot, B.Rem;
    assert ReadReg(r, rs1) == r[rs1] && ReadReg(r, rs2) == r[rs2];
  }

  lemma OpImm32Agrees(rd: D.Reg, rs1: D.Reg, imm: int, f3: int, f7: int, base: u64, r: Regs)
    requires (f3 == 0 || f3 == 1 || f3 == 5) && r[0] == 0
    ensures Computes(Micro.TranscodeOpImm32(rd, rs1, imm, f3, f7), base, r, rd,
                     I.OpImm32Value(f3, f7, ReadReg(r, rs1), imm))
  {
    assert ReadReg(r, rs1) == r[rs1];
    AddiwAgrees(r[rs1], imm);
    hide WrappingAdd, ToU64, B.Sext32, B.I32, B.U32, B.Pow2;
  }

  lemma OpReg32Agrees(rd: D.Reg, rs1: D.Reg, rs2: D.Reg, f3: int, f7: int, base: u64, r: Regs)
    requires LegalOpReg32(f3, f7) && r[0] == 0
    ensures Computes(Micro.TranscodeOp32(rd, rs1, rs2, f3, f7), base, r, rd,
                     I.Op32Value(f3, f7, ReadReg(r, rs1), ReadReg(r, rs2)))
  {
    var a, b := r[rs1], r[rs2];
    assert ReadReg(r, rs1) == a && ReadReg(r, rs2) == b;
    MulwAgrees(a, b);
    DivwAgrees(a, b);
    DivuwAgrees(a, b);
    RemwAgrees(a, b);
    hide K.MulwNarrow, I.MulwWide, K.DivwNarrow, I.DivwWide, K.DivuwNarrow, I.DivuwWide, K.RemwNarrow, I.RemwWide,
      WrappingAdd, WrappingSub, B.Sext32, B.I32, B.U32, B.Pow2;
  }

  // ---- One operation -----------------------------------------------------------------------------------------

  /** A store that gives up a reservation and is then refused by the bus. */
  predicate RefusedStore(op: D.Op, s: I.State) {
    op.Store? && I.StoreWidth(op.funct3).Some? &&
    var addr := WrappingAdd(ReadReg(s.hart.regs, op.rs1), ToU64(op.imm));
    var t := I.Translate(s, addr, M.Store);
    && ClearConflict(s.hart.reservation, addr) != s.hart.reservation
    && t.res.Ok?
    && Write(t.s.mem, t.res.value, I.StoreWidth(op.funct3).value, ReadReg(s.hart.regs, op.rs2)).Err?
  }

  /** The step took trap `t` in state `u`, except that a refused store has given up its reservation. */
  ghost predicate TookTrap(e: I.Step, u: I.State, t: Trap, refused: bool) {
    && e.err == Some(t)
    && e.next.(hart := e.next.hart.(reservation := u.hart.reservation)) == I.Fault(u, t).next
    && (e.next.hart.reservation == u.hart.reservation <==> !refused)
  }

  /** How a micro-operation's outcome corresponds to the interpreter's step for the same instruction. */
  ghost predicate Matches(o: K.Out, e: I.Step, s: I.State, next: u64, refused: bool) {
    match o
    case Next(u) => e == I.Retire(u, next)
    case Continue(u, pc) => e == I.Retire(u, pc)
    case Trapped(u, t, faultPc) => faultPc == s.hart.pc && u.hart.pc == faultPc && TookTrap(e, u, t, refused)
    case Exit(u, pc) => u == s && pc == s.hart.pc
  }

  lemma HandleTrapKeepsReservation(h: Hart, t: Trap, pc: u64, r: Option<u64>)
    ensures T.HandleTrap(h.(reservation := r), t, pc) == T.HandleTrap(h, t, pc).(reservation := r)
    ensures T.HandleTrap(h, t, pc).reservation == h.reservation
  {
    hide T.StatusEnterS, T.StatusEnterM, T.TrapVector, T.CauseWord;
  }

  lemma PlainTrap(u: I.State, t: Trap)
    ensures TookTrap(I.Fault(u, t), u, t, false)
  {
    HandleTrapKeepsReservation(u.hart, t, u.hart.pc, u.hart.reservation);
    hide T.HandleTrap;
  }

  lemma RefusedTrap(u: I.State, t: Trap, r: Option<u64>)
    ensures TookTrap(I.Fault(u.(hart := u.hart.(reservation := r)), t), u, t, r != u.hart.reservation)
  {
    HandleTrapKeepsReservation(u.hart, t, u.hart.pc, r);
    HandleTrapKeepsReservation(u.hart.(reservation := r), t, u.hart.pc, u.hart.reservation);
    hide T.HandleTrap;
  }

  /** Started in the same state, a legal instruction and its micro-operation do the same thing: same
      registers, memory, TLB, successor, trap and faulting pc.  Only a store refused by the bus differs,
      and only in the reservation, which the block keeps. */
  lemma MicroAgrees(op: D.Op, raw: u32, len: nat, off: nat, base: u64, s: I.State)
    requires Legal(op) && s.hart.regs[0] == 0
    requires s.hart.pc == ToU64(base + off) && s.hart.pc % 2 == 0
    requires op.Jal? || op.Branch? ==> op.imm % 2 == 0
    ensures Matches(K.MicroStep(Micro.Transcode(op, off, len), base, s), I.Execute(op, raw, len, s), s,
                    ToU64(s.hart.pc + len), RefusedStore(op, s))
  {
    hide *;
    if op.OpImm? || op.OpReg? || op.OpImm32? || op.OpReg32? {
      AluAgrees(op, off, len, base, s.hart.regs);
      ComputeMatches(op, raw, len, off, base, s);
    } else if op.Load? {
      LoadMatches(op, raw, len, off, base, s);
    } else if op.Store? {
      StoreMatches(op, raw, len, off, base, s);
    } else if op.Branch? {
      BranchMatches(op, raw, len, off, base, s);
    } else {
      OtherMatches(op, raw, len, off, base, s);
    }
  }

  lemma ComputeMatches(op: D.Op, raw: u32, len: nat, off: nat, base: u64, s: I.State)
    requires op.OpImm? || op.OpReg? || op.OpImm32? || op.OpReg32?
    requires Computes(Micro.Transcode(op, off, len), base, s.hart.regs, op.rd, ComputedValue(op, s.hart.regs))
    ensures Matches(K.MicroStep(Micro.Transcode(op, off, len), base, s), I.Execute(op, raw, len, s), s,
                    ToU64(s.hart.pc + len), RefusedStore(op, s))
  {
    hide K.AluWrite, I.OpImmValue, I.OpValue, I.OpImm32Value, I.Op32Value, Micro.Transcode, Micro.KindOf;
  }

  lemma LoadMatches(op: D.Op, raw: u32, len: nat, off: nat, base: u64, s: I.State)
    requires op.Load? && Legal(op) && s.hart.regs[0] == 0 && s.hart.pc == ToU64(base + off)
    ensures Matches(K.MicroStep(Micro.Transcode(op, off, len), base, s), I.Execute(op, raw, len, s), s,
                    ToU64(s.hart.pc + len), RefusedStore(op, s))
  {
    assert I.Execute(op, raw, len, s)
        == I.ExecLoad(s, op.rd, op.rs1, op.imm, op.funct3, raw, ToU64(s.hart.pc + len)) by {
      hide I.ExecLoad, K.MicroStep;
    }
    hide K.MicroStep, Micro.Transcode, M.Translate, I.Fault, TookTrap, Read, I.SextTo64, I.Execute, I.SetReg,
      WrappingAdd;
    LoadDispatch(op, off, len, base, s);
    var k := I.LoadKindOf(op.funct3).value;
    var o := K.LoadOp(s, op.rd, op.rs1, op.imm, k.width, k.signed, s.hart.pc);
    if o.Trapped? {
      PlainTrap(o.s, o.trap);
    }
  }

  /** The load micro-operation of each funct3 has the interpreter's width and signedness. */
  lemma LoadDispatch(op: D.Op, off: nat, len: nat, base: u64, s: I.State)
    requires op.Load? && Legal(op) && s.hart.pc == ToU64(base + off)
    ensures I.LoadKindOf(op.funct3).Some?
    ensures K.MicroStep(Micro.Transcode(op, off, len), base, s)
         == var k := I.LoadKindOf(op.funct3).value; K.LoadOp(s, op.rd, op.rs1, op.imm, k.width, k.signed, s.hart.pc)
  {
    hide K.LoadOp, K.StoreOp, K.TransferOp;
  }

  lemma StoreMatches(op: D.Op, raw: u32, len: nat, off: nat, base: u64, s: I.State)
    requires op.Store? && Legal(op) && s.hart.regs[0] == 0 && s.hart.pc == ToU64(base + off)
    ensures Matches(K.MicroStep(Micro.Transcode(op, off, len), base, s), I.Execute(op, raw, len, s), s,
                    ToU64(s.hart.pc + len), RefusedStore(op, s))
  {
    assert I.Execute(op, raw, len, s)
        == I.ExecStore(s, op.rs1, op.rs2, op.imm, op.funct3, raw, ToU64(s.hart.pc + len)) by {
      hide I.ExecStore, K.MicroStep;
    }
    hide K.MicroStep, Micro.Transcode, M.Translate, I.Fault, TookTrap, Write, ClearConflict, I.Execute, WrappingAdd;
    StoreDispatch(op, off, len, base, s);
    var w := I.StoreWidth(op.funct3).value;
    var o := K.StoreOp(s, op.rs1, op.rs2, op.imm, w, s.hart.pc);
    if o.Trapped? {
      PlainTrap(o.s, o.trap);
      RefusedTrap(o.s, o.trap, ClearConflict(o.s.hart.reservation,
                                             WrappingAdd(ReadReg(s.hart.regs, op.rs1), ToU64(op.imm))));
    }
  }

  lemma StoreDispatch(op: D.Op, off: nat, len: nat, base: u64, s: I.State)
    requires op.Store? && Legal(op) && s.hart.pc == ToU64(base + off)
    ensures I.StoreWidth(op.funct3).Some?
    ensures K.MicroStep(Micro.Transcode(op, off, len), base, s)
         == K.StoreOp(s, op.rs1, op.rs2, op.imm, I.StoreWidth(op.funct3).value, s.hart.pc)
  {
    hide K.LoadOp, K.StoreOp, K.TransferOp;
  }

  lemma BranchMatches(op: D.Op, raw: u32, len: nat, off: nat, base: u64, s: I.State)
    requires op.Branch? && op.imm % 2 == 0
    requires Legal(op) && s.hart.regs[0] == 0 && s.hart.pc == ToU64(base + off) && s.hart.pc % 2 == 0
    ensures Matches(K.MicroStep(Micro.Transcode(op, off, len), base, s), I.Execute(op, raw, len, s), s,
                    ToU64(s.hart.pc + len), RefusedStore(op, s))
  {
    BranchDispatch(op, off, len, base, s);
    EvenTarget(s.hart.pc, op.imm);
    hide K.MicroStep, Micro.Transcode, I.Taken, I.Fault, ToU64, WrappingAdd;
  }

  lemma BranchDispatch(op: D.Op, off: nat, len: nat, base: u64, s: I.State)
    requires op.Branch? && Legal(op) && s.hart.regs[0] == 0 && s.hart.pc == ToU64(base + off)
    ensures I.Taken(op.funct3, ReadReg(s.hart.regs, op.rs1), ReadReg(s.hart.regs, op.rs2)).Some?
    ensures K.MicroStep(Micro.Transcode(op, off, len), base, s)
         == K.BranchOp(s, I.Taken(op.funct3, ReadReg(s.hart.regs, op.rs1), ReadReg(s.hart.regs, op.rs2)).value,
                       s.hart.pc, op.imm, len)
  {
    hide K.BranchOp, B.I64, K.AccessOp;
  }

  lemma EvenTarget(pc: u64, imm: int)
    requires pc % 2 == 0 && imm % 2 == 0
    ensures WrappingAdd(pc, ToU64(imm)) % 2 == 0
  {
    EvenWrap(imm);
    EvenWrap(pc + ToU64(imm));
  }

  lemma EvenWrap(x: int)
    requires x % 2 == 0
    ensures ToU64(x) % 2 == 0
  {
    assert ToU64(x) == x - 2 * (0x8000_0000_0000_0000 * (x / TWO_64));
  }

  lemma OtherMatches(op: D.Op, raw: u32, len: nat, off: nat, base: u64, s: I.State)
    requires op.Lui? || op.Auipc? || op.Jal? || op.Jalr? || op.System? || op.Amo? || op.Fence?
    requires Legal(op) && s.hart.regs[0] == 0 && s.hart.pc == ToU64(base + off) && s.hart.pc % 2 == 0
    requires op.Jal? ==> op.imm % 2 == 0
    ensures Matches(K.MicroStep(Micro.Transcode(op, off, len), base, s), I.Execute(op, raw, len, s), s,
                    ToU64(s.hart.pc + len), RefusedStore(op, s))
  {
    hide *;
    if op.System? || op.Amo? {
      LeaveMatches(op, raw, len, off, base, s);
    } else if op.Jal? || op.Jalr? {
      JumpMatches(op, raw, len, off, base, s);
    } else {
      UpperMatches(op, raw, len, off, base, s);
    }
  }

  lemma LeaveMatches(op: D.Op, raw: u32, len: nat, off: nat, base: u64, s: I.State)
    requires (op.System? || op.Amo?) && Legal(op) && s.hart.pc == ToU64(base + off)
    ensures Matches(K.MicroStep(Micro.Transcode(op, off, len), base, s), I.Execute(op, raw, len, s), s,
                    ToU64(s.hart.pc + len), RefusedStore(op, s))
  {
    hide *;
    ExitOps(op, off, len);
    LeavesExits(Micro.Transcode(op, off, len), base, s);
    assert Matches(K.Exit(s, s.hart.pc), I.Execute(op, raw, len, s), s, ToU64(s.hart.pc + len),
                   RefusedStore(op, s)) by {
      ExitMatches(I.Execute(op, raw, len, s), s, ToU64(s.hart.pc + len), RefusedStore(op, s));
    }
  }

  lemma ExitMatches(e: I.Step, s: I.State, next: u64, refused: bool)
    ensures Matches(K.Exit(s, s.hart.pc), e, s, next, refused)
  {
  }

  lemma JumpMatches(op: D.Op, raw: u32, len: nat, off: nat, base: u64, s: I.State)
    requires op.Jal? || op.Jalr?
    requires s.hart.regs[0] == 0 && s.hart.pc == ToU64(base + off) && s.hart.pc % 2 == 0
    requires op.Jal? ==> op.imm % 2 == 0
    ensures Matches(K.MicroStep(Micro.Transcode(op, off, len), base, s), I.Execute(op, raw, len, s), s,
                    ToU64(s.hart.pc + len), RefusedStore(op, s))
  {
    hide K.AluWrite, K.AccessOp, I.Fault, WrappingAdd, ToU64, I.SetReg, Micro.KindOf, Micro.PcOffset;
    JumpOps(op, off, len);
    if op.Jal? {
      EvenTarget(s.hart.pc, op.imm);
    }
  }

  lemma JumpOps(op: D.Op, off: nat, len: nat)
    requires op.Jal? || op.Jalr?
    ensures var m := Micro.Transcode(op, off, len); Micro.KindOf(m) == Micro.Transfer && Micro.PcOffset(m) == off
  {
  }

  lemma UpperMatches(op: D.Op, raw: u32, len: nat, off: nat, base: u64, s: I.State)
    requires op.Lui? || op.Auipc? || op.Fence?
    requires s.hart.pc == ToU64(base + off)
    ensures Matches(K.MicroStep(Micro.Transcode(op, off, len), base, s), I.Execute(op, raw, len, s), s,
                    ToU64(s.hart.pc + len), RefusedStore(op, s))
  {
    hide K.AccessOp, K.TransferOp, I.Fault, WrappingAdd, ToU64;
  }

  lemma ExitOps(op: D.Op, off: nat, len: nat)
    requires (op.System? || op.Amo?) && Legal(op)
    ensures var m := Micro.Transcode(op, off, len); Micro.KindOf(m) == Micro.Leave && Micro.PcOffset(m) == off
  {
  }

  lemma LeavesExits(m: Micro.MicroOp, base: u64, s: I.State)
    requires Micro.KindOf(m) == Micro.Leave
    ensures K.MicroStep(m, base, s) == K.Exit(s, ToU64(base + Micro.PcOffset(m)))
  {
    hide Micro.KindOf, Micro.PcOffset, ToU64;
  }
}
