/** Loads, stores, atomics and control-register instructions: what they leave in registers, memory, the
    reservation and the register file, in the terms of the RISC-V ISA. */
module IsaMemory {
  import opened Base
  import B = Bits
  import opened BitLaws
  import opened Memory
  import opened Arithmetic
  import opened ByteMemory
  import M = Mmu
  import P = MmuProofs
  import PageWalk
  import D = Decoder
  import opened HartState
  import T = Traps
  import I = Interpreter
  import A = MicroAgreement
  import F = FetchProofs
  import opened IsaSteps

  // ---- Addresses -----------------------------------------------------------------------------------------------

  function Effective(base: u64, imm: int): u64 {
    (base + imm) % TWO_64
  }

  lemma EffectiveIs(base: u64, imm: int)
    ensures WrappingAdd(base, ToU64(imm)) == Effective(base, imm)
  {
    assert ToU64(imm) == imm - TWO_64 * (imm / TWO_64);
    Reduced(base + imm, base + ToU64(imm), imm / TWO_64);
  }

  lemma Reduced(x: int, y: int, k: int)
    requires x == y + TWO_64 * k
    ensures x % TWO_64 == y % TWO_64
  {
    Quotient(x, TWO_64, y / TWO_64 + k, y % TWO_64);
  }

  /** A hart's addresses are translated by its mode, satp (0x180) and mstatus (0x300), as section 4.3.2 of the
      Privileged Architecture says. */
  lemma HartTranslates(pt: Tables, s: I.State, va: u64, access: M.Access)
    requires F.Sane(pt, s)
    ensures PageWalk.Answers(I.Translate(s, va, access).res, s.mem, s.hart.mode, s.hart.csrs[0x180], s.hart.csrs[0x300],
                             va, access)
    ensures I.Translate(s, va, access).s.hart == s.hart
  {
    hide P.Resolve, M.Translate, PageWalk.Answers, F.Sane, F.OnlyMarked;
    F.TranslateOk(pt, s, va, access);
    PageWalk.ResolveFollows(s.mem, I.ContextOf(s.hart), va, access);
  }

  /** Bytes of a load or store by the low bits of funct3. */
  function BytesOf(f3: nat): (n: nat)
    ensures n > 0
  {
    if f3 % 4 == 0 then 1 else if f3 % 4 == 1 then 2 else if f3 % 4 == 2 then 4 else 8
  }

  ghost predicate InMemory(m: Mem, pa: u64, n: nat) {
    m.base <= pa && pa + n <= m.base + m.size
  }

  // ---- Instruction fetch ---------------------------------------------------------------------------------------

  /** What fetching at `pc` gives when the halfwords at pc and pc + 2 translate to `low` and `high`: a bus error is an
      instruction fault at pc itself; a low halfword not ending in 11 is a whole instruction. */
  ghost predicate FetchGives(m: Mem, pc: u64, low: Result<u64>, high: Result<u64>, f: F.Insn) {
    if pc % 2 != 0 then f == F.NoInsn(InstructionAddressMisaligned(pc))
    else if low.Err? then f == F.NoInsn(low.trap)
    else if !InMemory(m, low.value, 2) then f == F.NoInsn(InstructionAccessFault(pc))
    else
      var half := Number(m, low.value, 2);
      if half % 4 != 3 then f == match D.ExpandCompressed(half) case Ok(bits) => F.Insn(bits,
                                                                                        2) case Err(t) => F.NoInsn(t)
      else if high.Err? then f == F.NoInsn(high.trap)
      else if !InMemory(m, high.value, 2) then f == F.NoInsn(InstructionAccessFault(pc))
      else f == F.Insn(half + 0x1_0000 * Number(m, high.value, 2), 4)
  }

  /** The fetch both engines agree with, each halfword translated as a fetch. */
  lemma FetchMeans(m: Mem, c: M.Context, pc: u64)
    ensures exists low, high ::
              && PageWalk.Answers(low, m, c.mode, c.satp, c.mstatus, pc, M.Instruction)
              && PageWalk.Answers(high, m, c.mode, c.satp, c.mstatus, Effective(pc, 2), M.Instruction)
              && FetchGives(m, pc, low, high, F.PlainFetch(m, c, pc))
  {
    hide P.Resolve, PageWalk.Answers, Read, Number, D.ExpandCompressed;
    var next := WrappingAdd(pc, 2);
    EffectiveIs(pc, 2);
    var low, high := P.Resolve(m, c, pc, M.Instruction), P.Resolve(m, c, next, M.Instruction);
    PageWalk.ResolveFollows(m, c, pc, M.Instruction);
    PageWalk.ResolveFollows(m, c, next, M.Instruction);
    if pc % 2 == 0 {
      HalfMeans(m, c, pc);
      HalfMeans(m, c, next);
    }
  }

  /** A halfword at an even address never straddles: only DRAM's bounds can refuse it. */
  lemma HalfMeans(m: Mem, c: M.Context, va: u64)
    requires va % 2 == 0
    ensures var r := P.Resolve(m, c, va, M.Instruction);
            r.Ok? ==> Read(m, r.value, W16) == if InMemory(m, r.value, 2) then Ok(Number(m, r.value, 2))
                                               else Err(LoadAccessFault(r.value))
  {
    hide P.Resolve, Read, Number;
    var r := P.Resolve(m, c, va, M.Instruction);
    F.ResolvePage(m, c, va, va, M.Instruction);
    if r.Ok? {
      LoadMeans(m, r.value, W16);
      SameParity(va, r.value);
    }
  }

  lemma SameParity(x: u64, y: u64)
    requires x % 4096 == y % 4096
    ensures x % 2 == y % 2
  {
    Parity(x);
    Parity(y);
  }

  lemma Parity(x: u64)
    ensures x % 2 == x % 4096 % 2
  {
    Quotient(x, 2, 2048 * (x / 4096) + x % 4096 / 2, x % 4096 % 2);
  }

  // ---- Loads -----------------------------------------------------------------------------------------------------

  /** `v` is the number `x` of `n` bytes, its top bit repeated if `signed`. */
  ghost predicate Extended(x: nat, n: nat, signed: bool, v: u64)
    requires n > 0
  {
    forall j: nat :: j < 64 ==> B.Bit(v, j) == if j < 8 * n then B.Bit(x, j) else signed && B.Bit(x, 8 * n - 1)
  }

  lemma SignedLoad(x: u64, w: Width)
    requires x < Span(w)
    ensures Extended(x, Bytes(w), true, I.SextTo64(x, w))
  {
    hide B.Bit, B.Pow2, ToU64;
    Spans(w);
    assert Span(w) == 2 * B.Pow2(8 * Bytes(w) - 1) by {
      assert B.Pow2(8 * Bytes(w)) == 2 * B.Pow2(8 * Bytes(w) - 1) by {
        PowerStep(8 * Bytes(w));
      }
    }
    forall j: nat | j < 64
      ensures B.Bit(I.SextTo64(x, w), j) == if j < 8 * Bytes(w) then B.Bit(x, j) else B.Bit(x, 8 * Bytes(w) - 1)
    {
      BitOfSignExtended(x, 8 * Bytes(w), j);
    }
  }

  lemma PowerStep(n: nat)
    requires n > 0
    ensures B.Pow2(n) == 2 * B.Pow2(n - 1)
  {
  }

  lemma UnsignedLoad(x: u64, w: Width)
    requires x < Span(w)
    ensures Extended(x, Bytes(w), false, x)
  {
    hide B.Bit, B.Pow2;
    Spans(w);
    forall j: nat | 8 * Bytes(w) <= j < 64
      ensures !B.Bit(x, j)
    {
      BitOfSmall(x, 8 * Bytes(w), j);
    }
  }

  /** A load: the bytes at the translated address, LB, LH and LW sign extended, LBU, LHU and LWU not. */
  lemma LoadSteps(op: D.Op, raw: u32, len: nat, s: I.State)
    requires op.Load? && A.Legal(op)
    ensures var n, r := BytesOf(op.funct3), s.hart.regs;
            var t, e := I.Translate(s, Effective(X(r, op.rs1), op.imm), M.Load), I.Execute(op, raw, len, s);
            match t.res
            case Err(trap) => e == I.Fault(t.s, trap)
            case Ok(pa) =>
              if pa % n != 0 then e == I.Fault(t.s, LoadAddressMisaligned(pa))
              else if !InMemory(t.s.mem, pa, n) then e == I.Fault(t.s, LoadAccessFault(pa))
              else
                && e.err == None && e.next.mem == t.s.mem
                && e.next.hart == t.s.hart.(regs := e.next.hart.regs, pc := e.next.hart.pc)
                && Same64(e.next.hart.pc, s.hart.pc + len) && OnlyRd(t.s.hart.regs, e.next.hart.regs, op.rd)
                && (op.rd != 0 ==> Extended(Number(t.s.mem, pa, n), n, op.funct3 < 4, e.next.hart.regs[op.rd]))
  {
    hide I.Translate, I.Fault, WrappingAdd, Read, Number, Extended, ToU64, I.SextTo64;
    EffectiveIs(X(s.hart.regs, op.rs1), op.imm);
    WrapSame(s.hart.pc + len);
    var k := I.LoadKindOf(op.funct3).value;
    var t := I.Translate(s, Effective(X(s.hart.regs, op.rs1), op.imm), M.Load);
    if t.res.Ok? {
      LoadMeans(t.s.mem, t.res.value, k.width);
      if Read(t.s.mem, t.res.value, k.width).Ok? {
        var x := Read(t.s.mem, t.res.value, k.width).value;
        SignedLoad(x, k.width);
        UnsignedLoad(x, k.width);
        FullWidth(x);
      }
    }
  }

  /** Eight bytes need no extension. */
  lemma FullWidth(x: u64)
    ensures Extended(x, 8, false, x) <==> Extended(x, 8, true, x)
  {
  }

  // ---- Stores ----------------------------------------------------------------------------------------------------

  function WidthOf(f3: nat): Width {
    if f3 % 4 == 0 then W8 else if f3 % 4 == 1 then W16 else if f3 % 4 == 2 then W32 else W64
  }

  /** The reservation after a store to `addr`: given up if it covers the same 64 bytes. */
  function AfterStore(res: Option<u64>, addr: u64): Option<u64> {
    if res.Some? && res.value / 64 == addr / 64 then None else res
  }

  lemma AfterStoreIs(res: Option<u64>, addr: u64)
    ensures ClearConflict(res, addr) == AfterStore(res, addr)
  {
  }

  /** A store: the low bytes of rs2 at the translated address and nothing else; the reservation on the same 64 bytes
      is gone even if the bus refuses. */
  lemma StoreSteps(op: D.Op, raw: u32, len: nat, s: I.State)
    requires op.Store? && A.Legal(op)
    ensures var n, r, addr := BytesOf(op.funct3), s.hart.regs, Effective(X(s.hart.regs, op.rs1), op.imm);
            var t, e := I.Translate(s, addr, M.Store), I.Execute(op, raw, len, s);
            var u := t.s.(hart := t.s.hart.(reservation := AfterStore(t.s.hart.reservation, addr)));
            match t.res
            case Err(trap) => e == I.Fault(t.s, trap)
            case Ok(pa) =>
              if pa % n != 0 then e == I.Fault(u, StoreAddressMisaligned(pa))
              else if !InMemory(t.s.mem, pa, n) then e == I.Fault(u, StoreAccessFault(pa))
              else
                && e.err == None && e.next.hart == u.hart.(pc := e.next.hart.pc)
                && Same64(e.next.hart.pc, s.hart.pc + len)
                && Stored(t.s.mem, e.next.mem, pa, WidthOf(op.funct3), X(u.hart.regs, op.rs2))
  {
    hide I.Translate, I.Fault, WrappingAdd, Write, Stored, ToU64, ClearConflict;
    EffectiveIs(X(s.hart.regs, op.rs1), op.imm);
    WrapSame(s.hart.pc + len);
    var addr := Effective(X(s.hart.regs, op.rs1), op.imm);
    var t := I.Translate(s, addr, M.Store);
    AfterStoreIs(t.s.hart.reservation, addr);
    if t.res.Ok? {
      StoreMeans(t.s.mem, t.res.value, WidthOf(op.funct3), X(t.s.hart.regs, op.rs2));
    }
  }

  // ---- Read-modify-writes -------------------------------------------------------------------------------------------

  /** The signed value of a number of `bits` bits. */
  function SignedOf(x: nat, bits: nat): int
    requires bits > 0
  {
    if B.Bit(x, bits - 1) then x - B.Pow2(bits) else x
  }

  /** What a word of `bits` bits holding `x` holds after the operation with operand `y`. */
  ghost predicate AmoResult(f5: int, bits: nat, x: nat, y: nat, z: nat)
    requires bits > 0
  {
    match f5
    case 0x01 => z == y
    case 0x00 => z == x + y || z == x + y - B.Pow2(bits)
    case 0x04 => forall j: nat :: j < bits ==> B.Bit(z, j) == (B.Bit(x, j) != B.Bit(y, j))
    case 0x0C => forall j: nat :: j < bits ==> B.Bit(z, j) == (B.Bit(x, j) && B.Bit(y, j))
    case 0x08 => forall j: nat :: j < bits ==> B.Bit(z, j) == (B.Bit(x, j) || B.Bit(y, j))
    case 0x10 => z == if SignedOf(x, bits) < SignedOf(y, bits) then x else y
    case 0x14 => z == if SignedOf(x, bits) > SignedOf(y, bits) then x else y
    case 0x18 => z == if x < y then x else y
    case 0x1C => z == if x > y then x else y
    case _ => false
  }

  predicate AmoCode(f5: int) {
    f5 in {0x01, 0x00, 0x04, 0x0C, 0x08, 0x10, 0x14, 0x18, 0x1C}
  }

  lemma Low64(x: u64)
    ensures Low(x, 64) == x
  {
    hide Low;
    B.Pow2Values();
    SmallIsLow(x, 64);
  }

  lemma SignedOf64(x: u64)
    ensures SignedOf(x, 64) == B.I64(x)
  {
    B.Pow2Values();
    SignedIs(x);
    hide B.Bit, B.Pow2;
  }

  lemma LogicLow(a: u64, b: u64, bits: nat, j: nat)
    requires bits <= 64 && j < bits
    ensures B.Bit(Low(B.Xor(a, b), bits), j) == (B.Bit(Low(a, bits), j) != B.Bit(Low(b, bits), j))
    ensures B.Bit(Low(B.And(a, b), bits), j) == (B.Bit(Low(a, bits), j) && B.Bit(Low(b, bits), j))
    ensures B.Bit(Low(B.Or(a, b), bits), j) == (B.Bit(Low(a, bits), j) || B.Bit(Low(b, bits), j))
  {
    hide B.Bit, B.Xor, B.And, B.Or, Low;
    BitOfLow(a, bits, j);
    BitOfLow(b, bits, j);
    BitOfLow(B.Xor(a, b), bits, j);
    BitOfLow(B.And(a, b), bits, j);
    BitOfLow(B.Or(a, b), bits, j);
    BitOfXor(a, b, j);
    B.BitOfAnd(a, b, j);
    B.BitOfOr(a, b, j);
  }

  lemma AmoLogic(f5: int, a: u64, b: u64, bits: nat)
    requires (f5 == 0x04 || f5 == 0x08 || f5 == 0x0C) && 0 < bits <= 64
    ensures var z := if f5 == 0x04 then B.Xor(a, b) else if f5 == 0x08 then B.Or(a, b) else B.And(a, b);
            AmoResult(f5, bits, Low(a, bits), Low(b, bits), Low(z, bits))
  {
    hide B.Bit, B.Xor, B.And, B.Or, Low;
    forall j: nat | j < bits
      ensures B.Bit(Low(B.Xor(a, b), bits), j) == (B.Bit(Low(a, bits), j) != B.Bit(Low(b, bits), j))
      ensures B.Bit(Low(B.And(a, b), bits), j) == (B.Bit(Low(a, bits), j) && B.Bit(Low(b, bits), j))
      ensures B.Bit(Low(B.Or(a, b), bits), j) == (B.Bit(Low(a, bits), j) || B.Bit(Low(b, bits), j))
    {
      LogicLow(a, b, bits, j);
    }
  }

  lemma Amo64(f5: int, x: u64, y: u64)
    requires AmoCode(f5)
    ensures I.AmoValue(f5, x, y, W64).Some? && AmoResult(f5, 64, x, y, I.AmoValue(f5, x, y, W64).value)
  {
    hide B.Bit, B.Xor, B.And, B.Or, Low, SignedOf, B.I64, B.I32, B.Pow2;
    B.Pow2Values();
    SignedOf64(x);
    SignedOf64(y);
    WrapSum(x + y);
    Low64(x);
    Low64(y);
    Low64(B.Xor(x, y));
    Low64(B.And(x, y));
    Low64(B.Or(x, y));
    if f5 == 0x04 || f5 == 0x08 || f5 == 0x0C {
      AmoLogic(f5, x, y, 64);
    }
  }

  lemma SignedOf32(v: u64)
    ensures SignedOf(Low(v, 32), 32) == B.I32(v)
  {
    hide B.Bit, B.Pow2, Low, B.I32;
    B.Pow2Values();
    SignedWordIs(v);
    BitOfLow(v, 32, 31);
  }

  /** The loaded word, sign extended, and its low half. */
  lemma WidenedLow(x: u32)
    ensures Low(I.Widen(x, W32), 32) == x
  {
    hide B.Bit, B.Pow2, Low, ToU64;
    B.Pow2Values();
    var v := I.Widen(x, W32);
    assert v == ToU64(if x >= 0x8000_0000 then x - TWO_32 else x);
    Half64();
    forall j | 0 <= j < 32
      ensures B.Bit(Low(v, 32), j) == B.Bit(x, j)
    {
      BitOfSignExtended(x, 32, j);
      BitOfLow(v, 32, j);
    }
    B.BitsDetermineBelow(Low(v, 32), x, 32);
  }

  lemma Amo32(f5: int, x: u32, y: u64)
    requires AmoCode(f5)
    ensures var v := I.AmoValue(f5, I.Widen(x, W32), y, W32);
            v.Some? && AmoResult(f5, 32, x, Low(y, 32), Low(v.value, 32))
  {
    hide B.Bit, B.Xor, B.And, B.Or, Low, SignedOf, B.I64, B.I32, B.Pow2, I.Widen, WrappingAdd;
    B.Pow2Values();
    var prev := I.Widen(x, W32);
    WidenedLow(x);
    SignedOf32(prev);
    SignedOf32(y);
    LowIs(prev, 32);
    LowIs(y, 32);
    LowIs(WrappingAdd(prev, y), 32);
    LowOfSum(prev, y);
    if f5 == 0x04 || f5 == 0x08 || f5 == 0x0C {
      AmoLogic(f5, prev, y, 32);
    }
  }

  /** The value a read-modify-write puts into the register: the old word, sign extended. */
  lemma WidenedExtends(x: u64, w: Width)
    requires (w == W32 || w == W64) && x < Span(w)
    ensures Extended(x, Bytes(w), true, I.Widen(x, w))
  {
    hide I.SextTo64, Extended;
    SignedLoad(x, w);
    UnsignedLoad(x, w);
    FullWidth(x);
  }

  /** What memory and the register hold after a read-modify-write that the bus accepts. */
  ghost predicate AmoDone(f5: int, w: Width, m: Mem, n: Mem, pa: u64, y: u64, rd: D.Reg, after: Regs)
    requires w == W32 || w == W64
  {
    var x, z := Number(m, pa, Bytes(w)), Number(n, pa, Bytes(w));
    && AmoResult(f5, 8 * Bytes(w), x, Low(y, 8 * Bytes(w)), z)
    && n.base == m.base && n.size == m.size
    && (forall b: nat :: !(pa <= b < pa + Bytes(w)) ==> ByteAt(n, b) == ByteAt(m, b))
    && (rd != 0 ==> Extended(x, Bytes(w), true, after[rd]))
  }

  lemma AmoStores(f5: int, w: Width, m: Mem, pa: u64, y: u64)
    requires (w == W32 || w == W64) && AmoCode(f5) && Read(m, pa, w).Ok?
    ensures var x := Read(m, pa, w).value;
            var v := I.AmoValue(f5, I.Widen(x, w), y, w);
            && v.Some? && Write(m, pa, w, v.value).Ok?
            && var n := Write(m, pa, w, v.value).value;
               && AmoResult(f5, 8 * Bytes(w), x, Low(y, 8 * Bytes(w)), Number(n, pa, Bytes(w)))
               && n.base == m.base && n.size == m.size
               && forall b: nat :: !(pa <= b < pa + Bytes(w)) ==> ByteAt(n, b) == ByteAt(m, b)
  {
    hide Read, Write, I.AmoValue, AmoResult, ByteAt, Number, Low, B.Pow2, I.Widen;
    var x := Read(m, pa, w).value;
    LoadMeans(m, pa, w);
    if w == W32 {
      Amo32(f5, x, y);
    } else {
      WidenWhole(x);
      Amo64(f5, x, y);
      Low64(y);
    }
    var v := I.AmoValue(f5, I.Widen(x, w), y, w).value;
    StoreMeans(m, pa, w, v);
    ReadBack(m, pa, w, v);
    var n := Write(m, pa, w, v).value;
    LoadMeans(n, pa, w);
    LowIs(v, 8 * Bytes(w));
    if w == W64 {
      Low64(v);
    }
  }

  lemma WidenWhole(x: u64)
    ensures I.Widen(x, W64) == x
  {
  }

  /** A read-modify-write at `pa`: refused by the bus, with a store fault inside DRAM; or the register gets the old
      value, the memory word the result, and the reservation on the same 64 bytes is gone. */
  ghost predicate AmoOutcome(s: I.State, e: I.Step, pa: u64, addr: u64, w: Width, f5: int, rd: D.Reg, y: u64, pc: int)
    requires w == W32 || w == W64
  {
    var u := s.(hart := s.hart.(reservation := AfterStore(s.hart.reservation, addr)));
    if pa % Bytes(w) != 0 || !InMemory(s.mem, pa, Bytes(w)) then
      e == I.Fault(u, if s.mem.base <= pa < s.mem.base + s.mem.size then StoreAccessFault(pa)
                      else if pa % Bytes(w) != 0 then LoadAddressMisaligned(pa) else LoadAccessFault(pa))
    else
      && e.err == None && e.next.hart == u.hart.(regs := e.next.hart.regs, pc := e.next.hart.pc)
      && Same64(e.next.hart.pc, pc) && OnlyRd(u.hart.regs, e.next.hart.regs, rd)
      && AmoDone(f5, w, s.mem, e.next.mem, pa, y, rd, e.next.hart.regs)
  }

  /** AMOs of words and doublewords, translated as loads. */
  lemma AmoSteps(op: D.Op, raw: u32, len: nat, s: I.State)
    requires op.Amo? && AmoCode(op.funct5) && (op.funct3 == 2 || op.funct3 == 3)
    ensures var w, addr := WidthOf(op.funct3), X(s.hart.regs, op.rs1);
            var t, e := I.Translate(s, addr, M.Load), I.Execute(op, raw, len, s);
            if t.res.Err? then e == I.Fault(t.s, t.res.trap)
            else AmoOutcome(t.s, e, t.res.value, addr, w, op.funct5, op.rd, X(t.s.hart.regs, op.rs2), s.hart.pc + len)
  {
    hide I.Translate, I.Fault, I.ExecRmw, ToU64, AmoOutcome;
    var w, addr := WidthOf(op.funct3), X(s.hart.regs, op.rs1);
    WrapSame(s.hart.pc + len);
    var t := I.Translate(s, addr, M.Load);
    if t.res.Ok? {
      Rmw(t.s, t.res.value, addr, w, op.funct5, op.rd, op.rs2, raw, ToU64(s.hart.pc + len), s.hart.pc + len);
    }
  }

  lemma Rmw(s: I.State, pa: u64, addr: u64, w: Width, f5: int, rd: D.Reg, rs2: D.Reg, raw: u32, next: u64, pc: int)
    requires AmoCode(f5) && (w == W32 || w == W64) && Same64(next, pc)
    ensures AmoOutcome(s, I.ExecRmw(s, pa, addr, w, f5, rd, rs2, raw, next), pa, addr, w, f5, rd, X(s.hart.regs, rs2),
                       pc)
  {
    hide I.Fault, Read, Write, Number, ByteAt, AmoResult, Extended, ClearConflict, I.AmoValue, I.Widen, Low;
    AfterStoreIs(s.hart.reservation, addr);
    LoadMeans(s.mem, pa, w);
    CodesAreValues(f5, X(s.hart.regs, rs2), w);
    if Read(s.mem, pa, w).Ok? {
      AmoStores(f5, w, s.mem, pa, X(s.hart.regs, rs2));
      WidenedExtends(Read(s.mem, pa, w).value, w);
    }
  }

  lemma CodesAreValues(f5: int, y: u64, w: Width)
    ensures AmoCode(f5) <==> I.AmoValue(f5, 0, y, w).Some?
  {
    hide B.Xor, B.And, B.Or, I.SignedAt;
  }

  /** LR: the word at the translated address, sign extended, and a reservation on the 64 bytes of the address. */
  lemma LrSteps(op: D.Op, raw: u32, len: nat, s: I.State)
    requires op.Amo? && op.funct5 == 2 && (op.funct3 == 2 || op.funct3 == 3)
    ensures var w, addr := WidthOf(op.funct3), X(s.hart.regs, op.rs1);
            var t, e := I.Translate(s, addr, M.Load), I.Execute(op, raw, len, s);
            match t.res
            case Err(trap) => e == I.Fault(t.s, trap)
            case Ok(pa) =>
              if pa % Bytes(w) != 0 then e == I.Fault(t.s, LoadAddressMisaligned(pa))
              else if !InMemory(t.s.mem, pa, Bytes(w)) then e == I.Fault(t.s, LoadAccessFault(pa))
              else
                && e.err == None && e.next.mem == t.s.mem && OnlyRd(t.s.hart.regs, e.next.hart.regs, op.rd)
                && e.next.hart.reservation == Some(64 * (addr / 64)) && Same64(e.next.hart.pc, s.hart.pc + len)
                && (op.rd != 0 ==> Extended(Number(t.s.mem, pa, Bytes(w)), Bytes(w), true, e.next.hart.regs[op.rd]))
  {
    hide I.Translate, I.Fault, Read, Number, Extended, ToU64, I.Widen;
    var w, addr := WidthOf(op.funct3), X(s.hart.regs, op.rs1);
    var t := I.Translate(s, addr, M.Load);
    GranuleIs(addr);
    WrapSame(s.hart.pc + len);
    if t.res.Ok? {
      LoadMeans(t.s.mem, t.res.value, w);
      if Read(t.s.mem, t.res.value, w).Ok? {
        WidenedExtends(Read(t.s.mem, t.res.value, w).value, w);
      }
    }
  }

  /** SC: a misaligned one traps, with the virtual address; otherwise it stores and writes 0 if the reservation is on
      the 64 bytes of the address, and writes 1 and changes nothing else if it is not. */
  lemma ScSteps(op: D.Op, raw: u32, len: nat, s: I.State)
    requires op.Amo? && op.funct5 == 3 && (op.funct3 == 2 || op.funct3 == 3)
    ensures var w, addr := WidthOf(op.funct3), X(s.hart.regs, op.rs1);
            var t, e := I.Translate(s, addr, M.Load), I.Execute(op, raw, len, s);
            match t.res
            case Err(trap) => e == I.Fault(t.s, trap)
            case Ok(pa) =>
              var h, u := t.s.hart, e.next.hart;
              if addr % Bytes(w) != 0 then e == I.Fault(t.s, StoreAddressMisaligned(addr))
              else if h.reservation != Some(64 * (addr / 64)) then
                && e.err == None && e.next.mem == t.s.mem && u.reservation == h.reservation
                && OnlyRd(h.regs, u.regs, op.rd) && (op.rd != 0 ==> u.regs[op.rd] == 1)
              else if pa % Bytes(w) != 0 then e == I.Fault(t.s, StoreAddressMisaligned(pa))
              else if !InMemory(t.s.mem, pa, Bytes(w)) then e == I.Fault(t.s, StoreAccessFault(pa))
              else
                && e.err == None && Stored(t.s.mem, e.next.mem, pa, w, X(h.regs, op.rs2)) && u.reservation == None
                && OnlyRd(h.regs, u.regs, op.rd) && (op.rd != 0 ==> u.regs[op.rd] == 0)
  {
    hide I.Translate, I.Fault, Write, Stored, ToU64;
    var w, addr := WidthOf(op.funct3), X(s.hart.regs, op.rs1);
    var t := I.Translate(s, addr, M.Load);
    GranuleIs(addr);
    if t.res.Ok? {
      StoreMeans(t.s.mem, t.res.value, w, X(t.s.hart.regs, op.rs2));
    }
  }

  lemma GranuleIs(addr: u64)
    ensures Granule(addr) == 64 * (addr / 64) && Granule(addr) / 64 == addr / 64
  {
    Quotient(64 * (addr / 64), 64, addr / 64, 0);
  }

  // ---- Minimum and maximum of words by 64-bit comparison -----------------------------------------------------------

  /** The word the WASM build stores for AMOMIN.W (0x10) and AMOMAX.W (0x14): it compares the sign-extended old word
      with the whole register. */
  function WideBest(f5: int, x: u32, y: u64): u32 {
    if f5 == 0x10 then if B.I32(x) < B.I64(y) then x else y % TWO_32
    else if B.I32(x) > B.I64(y) then x else y % TWO_32
  }

  /** The register is a sign-extended word, or lies above all words with the greatest word as its low half, or below
      all words with the least one. */
  predicate Comparable(y: u64) {
    || B.I64(y) == B.I32(y)
    || (B.I64(y) >= 0x8000_0000 && y % TWO_32 == 0x7FFF_FFFF)
    || (B.I64(y) < -0x8000_0000 && y % TWO_32 == 0x8000_0000)
  }

  /** That comparison stores what the ISA says for every word in memory if and only if the register is one of those. */
  lemma WideCompareExact(f5: int, y: u64)
    requires f5 == 0x10 || f5 == 0x14
    ensures (forall x: u32 :: AmoResult(f5, 32, x, Low(y, 32), WideBest(f5, x, y))) <==> Comparable(y)
  {
    hide AmoResult, Low, WideBest, WordBest, Comparable;
    forall x: u32
      ensures AmoResult(f5, 32, x, Low(y, 32), WideBest(f5, x, y)) <==> WideBest(f5, x, y) == WordBest(f5, x, y)
    {
      BestIs(f5, x, y);
    }
    BestExact(f5, y);
    if forall x: u32 :: AmoResult(f5, 32, x, Low(y, 32), WideBest(f5, x, y)) {
      forall x: u32
        ensures WideBest(f5, x, y) == WordBest(f5, x, y)
      {
        assert AmoResult(f5, 32, x, Low(y, 32), WideBest(f5, x, y));
      }
    }
  }

  lemma BestExact(f5: int, y: u64)
    requires f5 == 0x10 || f5 == 0x14
    ensures (forall x: u32 :: WideBest(f5, x, y) == WordBest(f5, x, y)) <==> Comparable(y)
  {
    if forall x: u32 :: WideBest(f5, x, y) == WordBest(f5, x, y) {
      LowOfSigned(y);
      var greatest: u32, least: u32 := 0x7FFF_FFFF, 0x8000_0000;
      assert WideBest(f5, greatest, y) == WordBest(f5, greatest, y);
      assert WideBest(f5, least, y) == WordBest(f5, least, y);
    }
  }

  function WordBest(f5: int, x: u32, y: u64): u32 {
    if f5 == 0x10 then if B.I32(x) < B.I32(y) then x else y % TWO_32
    else if B.I32(x) > B.I32(y) then x else y % TWO_32
  }

  lemma BestIs(f5: int, x: u32, y: u64)
    requires f5 == 0x10 || f5 == 0x14
    ensures AmoResult(f5, 32, x, Low(y, 32), WideBest(f5, x, y)) <==> WideBest(f5, x, y) == WordBest(f5, x, y)
  {
    hide Low, SignedOf, B.I32, B.I64, B.Pow2;
    SignedOf32(x);
    SignedOf32(y);
    B.Pow2Values();
    SmallIsLow(x, 32);
    LowIs(y, 32);
  }

  /** A register whose signed value is that of a word is the word, sign extended. */
  lemma LowOfSigned(y: u64)
    ensures -0x8000_0000 <= B.I64(y) < 0x8000_0000 ==> B.I64(y) == B.I32(y)
  {
  }

  // ---- Control and status registers ---------------------------------------------------------------------------------

  /** Privilege level of a mode, as in bits 9:8 of a register number. */
  function Level(mode: Mode): nat {
    match mode
    case User => 0
    case Supervisor => 1
    case Machine => 3
  }

  /** Registers that are not what their number says: the windows sstatus, sie, sip, and the timer. */
  predicate Plain(csr: CsrAddr) {
    csr !in {0x100, 0x104, 0x144, 0xC01}
  }

  /** No mode reaches a register above its own privilege. */
  lemma CsrProtected(s: I.State, rd: D.Reg, rs1: D.Reg, f3: int, csr: CsrAddr, next: u64)
    requires csr != 0xC01 && Field(csr, 8, 2) > Level(s.hart.mode)
    ensures I.ExecCsr(s, rd, rs1, f3, csr, next) == I.Fault(s, IllegalInstruction(csr))
  {
    hide I.Fault, I.CsrNew, CsrWrite, Field;
    LevelField(csr);
  }

  lemma LevelField(csr: CsrAddr)
    ensures Field(csr, 8, 2) == csr / 0x100 % 4 && Field(csr, 10, 2) == csr / 0x400 % 4
  {
    hide Field, B.Pow2;
    SmallPowers();
    FieldIs(csr, 8, 2, 0x100, 4);
    FieldIs(csr, 10, 2, 0x400, 4);
  }

  /** The bits a CSR instruction leaves in a register: written, set or cleared. */
  ghost predicate CsrResult(f3: int, prev: u64, operand: u64, after: u64) {
    forall j: nat :: j < 64 ==>
      B.Bit(after, j) == if f3 == 1 || f3 == 5 then B.Bit(operand, j)
                        else if f3 == 2 || f3 == 6 then B.Bit(prev, j) || B.Bit(operand, j)
                        else B.Bit(prev, j) && !B.Bit(operand, j)
  }

  lemma NewValue(f3: int, rs1: D.Reg, v: u64, prev: u64)
    requires f3 in {1, 2, 3, 5, 6, 7}
    ensures I.CsrNew(f3, rs1, v, prev).Some? <==> f3 == 1 || f3 == 5 || rs1 != 0
    ensures I.CsrNew(f3, rs1, v, prev).Some? ==>
              CsrResult(f3, prev, if f3 < 4 then v else rs1, I.CsrNew(f3, rs1, v, prev).value)
  {
    hide B.Bit, B.Or, B.And, B.Not;
    var operand: u64 := if f3 < 4 then v else rs1;
    forall j: nat | j < 64
      ensures B.Bit(B.Or(prev, operand), j) == (B.Bit(prev, j) || B.Bit(operand, j))
      ensures B.Bit(B.And(prev, B.Not(operand)), j) == (B.Bit(prev, j) && !B.Bit(operand, j))
    {
      B.BitOfOr(prev, operand, j);
      B.BitOfNot(operand, j);
      B.BitOfAnd(prev, B.Not(operand), j);
    }
  }

  /** CSR instructions on plain registers: the old value goes to rd; CSRRW writes the operand, CSRRS sets and CSRRC
      clears its bits, the latter two only if rs1 is not 0; registers with bits 11:10 both set do not change; no
      other register does; and a write to satp (0x180) leaves no valid TLB entry. */
  lemma CsrSteps(s: I.State, rd: D.Reg, rs1: D.Reg, f3: int, csr: CsrAddr, next: u64)
    requires f3 in {1, 2, 3, 5, 6, 7} && Plain(csr) && Field(csr, 8, 2) <= Level(s.hart.mode)
    ensures var e, prev := I.ExecCsr(s, rd, rs1, f3, csr, next), s.hart.csrs[csr];
            var u, writes := e.next.hart, f3 == 1 || f3 == 5 || rs1 != 0;
            && e.err == None && u.pc == next && u.mode == s.hart.mode && u.reservation == s.hart.reservation
            && e.next.mem == s.mem
            && OnlyRd(s.hart.regs, u.regs, rd) && (rd != 0 ==> u.regs[rd] == prev)
            && (forall k :: 0 <= k < 4096 && k != csr ==> u.csrs[k] == s.hart.csrs[k])
            && (if writes && Field(csr, 10, 2) != 3
                then CsrResult(f3, prev, if f3 < 4 then X(s.hart.regs, rs1) else rs1, u.csrs[csr])
                    else u.csrs[csr] == prev)
            && (if csr == 0x180 && writes then forall k :: 0 <= k < 64 ==> !e.next.tlb[k].valid
                else e.next.tlb == s.tlb)
  {
    hide I.Fault, I.CsrNew, Field, CsrResult;
    LevelField(csr);
    NewValue(f3, rs1, X(s.hart.regs, rs1), s.hart.csrs[csr]);
  }

  /** Instructions of the system opcode with funct3 0: SFENCE.VMA (funct7 9) leaves no valid TLB entry and nothing
      else changed, and is illegal for User; MRET and SRET return from exactly the Machine and the Supervisor mode;
      ECALL, EBREAK and WFI are handed out; every other word is illegal. */
  lemma SystemSteps(s: I.State, rd: D.Reg, rs1: D.Reg, imm: int, raw: u32, next: u64)
    requires raw % 128 == 0x73
    ensures var e, fence := I.ExecSystem(s, rd, rs1, 0, imm, raw, next), Field(raw, 25, 7) == 9
            && Field(raw, 12, 3) == 0;
            && (fence && s.hart.mode != User ==>
                  && e.err == None && e.next.hart == s.hart.(pc := next) && e.next.mem == s.mem
                  && forall k :: 0 <= k < 64 ==> !e.next.tlb[k].valid)
            && (raw == 0x0000_0073 ==> e == I.Fault(s, match s.hart.mode case User => EnvironmentCallFromU
                                                       case Supervisor => EnvironmentCallFromS
                                                       case Machine => EnvironmentCallFromM))
            && (raw == 0x0010_0073 ==> e == I.Fault(s, Breakpoint))
            && (raw == 0x1050_0073 ==> e == I.Fault(s, Wfi))
            && (raw == 0x3020_0073 && s.hart.mode == Machine ==> e == I.Step(s.(hart := T.Mret(s.hart)), None))
            && (raw == 0x1020_0073 && s.hart.mode == Supervisor ==> e == I.Step(s.(hart := T.Sret(s.hart)), None))
            && (|| (fence && s.hart.mode == User) || (raw == 0x3020_0073 && s.hart.mode != Machine)
                || (raw == 0x1020_0073 && s.hart.mode != Supervisor)
                || (!fence && raw !in {0x0000_0073, 0x0010_0073, 0x1050_0073, 0x3020_0073, 0x1020_0073})
                <==> e == I.Fault(s, IllegalInstruction(raw)))
  {
    hide Field, T.Mret, T.Sret, I.Fault, I.IsSfenceVma;
    FenceFields(raw);
    FaultsReport(s);
  }

  lemma FenceFields(raw: u32)
    ensures I.IsSfenceVma(raw) <==> Field(raw, 25, 7) == 9 && Field(raw, 12, 3) == 0 && raw % 128 == 0x73
    ensures raw % 128 == 0x73 && I.IsSfenceVma(raw) ==>
              raw !in {0x0000_0073, 0x0010_0073, 0x1050_0073, 0x3020_0073, 0x1020_0073}
  {
    hide Field, B.Pow2;
    SmallPowers();
    TwentyPowers();
    assert B.Pow2(25) == 0x200_0000 by {
      B.Pow2Add(13, 12);
    }
    FieldIs(raw, 25, 7, 0x200_0000, 128);
    FieldIs(raw, 12, 3, 0x1000, 8);
  }

  lemma FaultsReport(s: I.State)
    ensures forall t :: I.Fault(s, t).err == Some(t)
  {
  }

  /** The timer register reads the doubleword at 0x0200_BFF8, or 0 where the bus refuses. */
  lemma TimeRead(s: I.State)
    ensures I.CsrOld(s, 0xC01)
         == Ok(if InMemory(s.mem, 0x0200_BFF8, 8) then Number(s.mem, 0x0200_BFF8, 8) else 0)
  {
    hide Read, Number;
    LoadMeans(s.mem, 0x0200_BFF8, W64);
  }

  /** The bits the windows show and let through: SIE, SPIE, SPP, FS, SUM and MXR of sstatus, and the software, timer
      and external bits of sie and sip, of which sip only lets the software bit be written. */
  lemma WindowMasks(j: nat)
    requires j < 64
    ensures B.Bit(SSTATUS_MASK, j) <==> j in {1, 5, 8, 13, 14, 18, 19}
    ensures B.Bit(S_INTERRUPTS, j) <==> j in {1, 5, 9}
    ensures B.Bit(SIP_WRITABLE, j) <==> j == 1
  {
    MaskLow(j);
  }

  lemma MaskLow(j: nat)
    ensures B.Bit(0xC6122, j) <==> j in {1, 5, 8, 13, 14, 18, 19}
    ensures B.Bit(0x222, j) <==> j in {1, 5, 9}
    ensures B.Bit(0x2, j) <==> j == 1
  {
    hide B.Bit, B.Pow2;
    TwentyPowers();
    if j >= 20 {
      BitOfSmall(0xC6122, 20, j);
      BitOfSmall(0x222, 20, j);
      BitOfSmall(0x2, 20, j);
    } else {
      BitAt(0x222, j);
      BitAt(0x2, j);
      if j < 10 {
        LowMask(j);
      } else {
        HighMask(j);
      }
    }
  }

  lemma LowMask(j: nat)
    requires j < 10
    ensures B.Bit(0xC6122, j) <==> j in {1, 5, 8}
  {
    hide B.Bit, B.Pow2;
    TwentyPowers();
    BitAt(0xC6122, j);
  }

  lemma HighMask(j: nat)
    requires 10 <= j < 20
    ensures B.Bit(0xC6122, j) <==> j in {13, 14, 18, 19}
  {
    hide B.Bit, B.Pow2;
    TwentyPowers();
    BitAt(0xC6122, j);
  }

  lemma TwentyPowers()
    ensures B.Pow2(13) == 0x2000 && B.Pow2(14) == 0x4000 && B.Pow2(15) == 0x8000 && B.Pow2(16) == 0x1_0000
    ensures B.Pow2(17) == 0x2_0000 && B.Pow2(18) == 0x4_0000 && B.Pow2(19) == 0x8_0000 && B.Pow2(20) == 0x10_0000
    ensures B.Pow2(0) == 1 && B.Pow2(1) == 2 && B.Pow2(2) == 4 && B.Pow2(3) == 8 && B.Pow2(4) == 16 && B.Pow2(5) == 32
    ensures B.Pow2(6) == 64 && B.Pow2(7) == 128 && B.Pow2(8) == 256 && B.Pow2(9) == 512 && B.Pow2(10) == 1024
    ensures B.Pow2(11) == 2048 && B.Pow2(12) == 4096
  {
    hide B.Pow2;
    SmallPowers();
    B.Pow2Add(1, 12);
    B.Pow2Add(2, 12);
    B.Pow2Add(3, 12);
    B.Pow2Add(4, 12);
    B.Pow2Add(5, 12);
    B.Pow2Add(6, 12);
    B.Pow2Add(7, 12);
    B.Pow2Add(8, 12);
  }
}
