/** Running a compiled block does to the machine what interpreting its instructions one by one does. */
module BlockCorrect {
  import opened Base
  import opened Memory
  import M = Mmu
  import P = MmuProofs
  import D = Decoder
  import opened HartState
  import Micro
  import T = Traps
  import I = Interpreter
  import K = Block
  import A = MicroAgreement
  import F = FetchProofs
  import W = Twins

  // ---- What the compiler would produce from the tables and memory alone ---------------------------------

  datatype Plan = Planned(block: K.Block) | PlanTrap(trap: Trap)

  function PlanMove(m: Mem, c: M.Context, b: K.Block, pc: u64, off: nat): (v: K.Move)
    ensures v.More? ==> |v.block.ops| == |b.ops| + 1 <= K.MAX_BLOCK_SIZE && F.PlainFetch(m, c, pc).Insn?
  {
    match F.PlainFetch(m, c, pc)
    case NoInsn(t) => K.Stopped(b, t)
    case Insn(bits, len) => K.Advance(b, bits, len, pc, off)
  }

  function PlanFrom(m: Mem, c: M.Context, b: K.Block, pc: u64, off: nat): Plan
    requires |b.ops| <= K.MAX_BLOCK_SIZE
    decreases K.MAX_BLOCK_SIZE - |b.ops|
  {
    match PlanMove(m, c, b, pc, off)
    case Done(block) => Planned(block)
    case Refuse(t) => PlanTrap(t)
    case More(longer, after) => PlanFrom(m, c, longer, after, off + F.PlainFetch(m, c, pc).len)
  }

  function PlanFor(m: Mem, c: M.Context, pc: u64, generation: nat): Plan {
    match P.Resolve(m, c, pc, M.Instruction)
    case Err(t) => PlanTrap(t)
    case Ok(pa) => PlanFrom(m, c, K.Block(pc, pa, [], 0, None, generation), pc, 0)
  }

  /** From `pc` on, the compilation loop fetches from code words only. */
  ghost predicate ReadsFrom(code: iset<int>, m: Mem, c: M.Context, b: K.Block, pc: u64, off: nat)
    requires |b.ops| <= K.MAX_BLOCK_SIZE
    decreases K.MAX_BLOCK_SIZE - |b.ops|
  {
    && F.FetchIn(code, m, c, pc)
    && var v := PlanMove(m, c, b, pc, off);
       (v.More? ==> ReadsFrom(code, m, c, v.block, v.pc, off + F.PlainFetch(m, c, pc).len))
  }

  /** Compiling at `pc` fetches from code words only; where the block begins in physical memory and which
      generation it gets has no influence on that. */
  ghost predicate ReadsIn(code: iset<int>, m: Mem, c: M.Context, pc: u64) {
    forall pa: u64, generation: nat :: ReadsFrom(code, m, c, K.Block(pc, pa, [], 0, None, generation), pc, 0)
  }

  lemma ReadsFirst(code: iset<int>, m: Mem, c: M.Context, pc: u64)
    requires ReadsIn(code, m, c, pc)
    ensures F.FetchIn(code, m, c, pc)
  {
    hide F.FetchIn, PlanMove;
    assert ReadsFrom(code, m, c, K.Block(pc, 0, [], 0, None, 0), pc, 0);
  }

  ghost predicate SamePlan(r: K.Compiled, p: Plan) {
    match r
    case Compiled(_, b) => p == Planned(b)
    case CompileTrap(_, t) => p == PlanTrap(t)
  }

  /** If the loop goes on, the next instruction starts in the block's page. */
  lemma StillInPage(start: u64, pc: u64, len: nat)
    requires pc / 4096 == start / 4096 && (len == 2 || len == 4)
    requires ToU64(pc + len) < K.NextPage(start)
    ensures ToU64(pc + len) / 4096 == start / 4096 && ToU64(pc + len) == pc + len
  {
    var q := start / 4096;
    assert start - start % 4096 == 4096 * q;
    assert pc == 4096 * q + pc % 4096;
    assert q <= 0xF_FFFF_FFFF_FFFF;
    assert q != 0xF_FFFF_FFFF_FFFF;
    assert K.NextPage(start) == 4096 * q + 4096;
    assert pc + len < TWO_64;
  }

  lemma FetchLength(m: Mem, c: M.Context, pc: u64)
    ensures var f := F.PlainFetch(m, c, pc); f.Insn? ==> (f.len == 2 || f.len == 4) && pc % 2 == 0
  {
    hide P.Resolve, Read, D.ExpandCompressed;
  }

  /** One pass of the loop makes the plan's move. */
  lemma PassIsPlan(pt: Tables, code: iset<int>, s0: I.State, s: I.State, b: K.Block, pc: u64, off: nat)
    requires F.Sane(pt, s0) && F.Disjoint(pt, code) && F.OnlyMarked(pt, s0, s)
    requires F.FetchIn(code, s0.mem, I.ContextOf(s0.hart), pc) && pc / 4096 == b.startPc / 4096
    ensures var f, v := K.FetchInsn(s, pc), PlanMove(s0.mem, I.ContextOf(s0.hart), b, pc, off);
            && v == (if f.Fetched? then K.Advance(b, f.insn, f.len, pc, off) else K.Stopped(b, f.trap))
            && F.OnlyMarked(pt, s0, f.s)
            && (v.More? ==> && f.Fetched? && f.len == F.PlainFetch(s0.mem, I.ContextOf(s0.hart), pc).len
                            && v.block.startPc == b.startPc && v.pc / 4096 == b.startPc / 4096)
  {
    hide P.Resolve, Agree, F.Sane, F.FetchIn, F.PlainFetch, K.FetchInsn, K.Advance, F.OnlyMarked, F.Disjoint, ToU64,
      K.NextPage;
    var c := I.ContextOf(s0.hart);
    MarkedHart(pt, s0, s);
    F.MarkedFetchIn(pt, code, s0, s, pc);
    MarkedSane(pt, s0, s);
    F.CompilerFetch(pt, code, s, pc);
    FetchLength(s0.mem, c, pc);
    var f := K.FetchInsn(s, pc);
    F.OnlyMarkedTransitive(pt, s0, s, f.s);
    if PlanMove(s0.mem, c, b, pc, off).More? {
      StillInPage(b.startPc, pc, f.len);
      MoreKeepsStart(b, f.insn, f.len, pc, off);
    }
  }

  lemma MarkedHart(pt: Tables, s: I.State, e: I.State)
    requires F.OnlyMarked(pt, s, e)
    ensures e.hart == s.hart
  {
  }

  lemma MarkedSane(pt: Tables, s: I.State, e: I.State)
    requires F.OnlyMarked(pt, s, e)
    ensures F.Sane(pt, e)
  {
  }

  /** The compiler, translating as it goes, produces the plan of the memory it started from. */
  lemma {:induction false} CompileIsPlan(pt: Tables, code: iset<int>, s0: I.State, s: I.State, b: K.Block, pc: u64,
                                         off: nat)
    requires F.Sane(pt, s0) && F.Disjoint(pt, code) && F.OnlyMarked(pt, s0, s)
    requires |b.ops| <= K.MAX_BLOCK_SIZE && pc / 4096 == b.startPc / 4096
    requires ReadsFrom(code, s0.mem, I.ContextOf(s0.hart), b, pc, off)
    ensures var r := K.CompileFrom(s, b, pc, off);
            SamePlan(r, PlanFrom(s0.mem, I.ContextOf(s0.hart), b, pc, off)) && F.OnlyMarked(pt, s0, r.s)
    decreases K.MAX_BLOCK_SIZE - |b.ops|
  {
    hide F.Sane, F.FetchIn, F.PlainFetch, K.FetchInsn, K.Advance, K.Stopped, PlanMove, F.OnlyMarked, F.Disjoint,
      I.ContextOf;
    var c := I.ContextOf(s0.hart);
    PassIsPlan(pt, code, s0, s, b, pc, off);
    var f, v := K.FetchInsn(s, pc), PlanMove(s0.mem, c, b, pc, off);
    if v.More? {
      CompileIsPlan(pt, code, s0, f.s, v.block, v.pc, off + f.len);
    }
  }

  lemma MoreKeepsStart(b: K.Block, insn: u32, len: nat, pc: u64, off: nat)
    ensures var v := K.Advance(b, insn, len, pc, off); v.More? ==> v.block.startPc == b.startPc
  {
    hide D.Decode, Micro.Transcode, Micro.IsTerminator, K.NextPage, K.JumpTarget, ToU64;
  }

  lemma AdvanceKeeps(b: K.Block, insn: u32, len: nat, pc: u64, off: nat)
    ensures var v := K.Advance(b, insn, len, pc, off);
            v.More? ==>
              && D.Decode(insn).Ok?
              && v.block == K.Appended(b, Micro.Transcode(D.Decode(insn).value, off, len), len)
    ensures var v := K.Advance(b, insn, len, pc, off);
            v.Done? ==>
              || v.block == b.(next := v.block.next)
              || (D.Decode(insn).Ok? && |b.ops| < K.MAX_BLOCK_SIZE
                  && v.block == K.Appended(b, Micro.Transcode(D.Decode(insn).value, off, len),
                                           len).(next := v.block.next))
    ensures var v := K.Advance(b, insn, len, pc, off); v.Done? ==> |v.block.ops| > 0
  {
    hide D.Decode, Micro.Transcode, Micro.IsTerminator, K.NextPage, K.JumpTarget, ToU64;
  }

  // ---- The shape of a plan ---------------------------------------------------------------------------------

  /** From index `idx` at byte offset `off`, the operations are those of the instructions found there,
      each of which starts in the block's page. */
  ghost predicate Follows(m: Mem, c: M.Context, b: K.Block, idx: nat, off: nat)
    requires idx <= |b.ops|
    decreases |b.ops| - idx
  {
    if idx == |b.ops| then off == b.byteLen
    else
      var pc := ToU64(b.startPc + off);
      match F.PlainFetch(m, c, pc)
      case NoInsn(_) => false
      case Insn(bits, len) =>
        && pc / 4096 == b.startPc / 4096
        && D.Decode(bits).Ok?
        && b.ops[idx] == Micro.Transcode(D.Decode(bits).value, off, len)
        && Follows(m, c, b, idx + 1, off + len)
  }

  lemma {:induction false} PlanFollows(m: Mem, c: M.Context, b: K.Block, pc: u64, off: nat)
    requires |b.ops| <= K.MAX_BLOCK_SIZE
    requires pc == ToU64(b.startPc + off) && off == b.byteLen && pc / 4096 == b.startPc / 4096
    ensures var p := PlanFrom(m, c, b, pc, off);
            p.Planned? ==>
              && 0 < |p.block.ops| <= K.MAX_BLOCK_SIZE && |b.ops| <= |p.block.ops| && p.block.ops[..|b.ops|] == b.ops
              && p.block.startPc == b.startPc && p.block.startPa == b.startPa && p.block.generation == b.generation
              && Follows(m, c, p.block, |b.ops|, off)
    decreases K.MAX_BLOCK_SIZE - |b.ops|
  {
    hide F.PlainFetch, D.Decode, Micro.Transcode, K.Advance, ToU64;
    FetchLength(m, c, pc);
    var f := F.PlainFetch(m, c, pc);
    if f.Insn? {
      AdvanceKeeps(b, f.bits, f.len, pc, off);
      OffsetSum(b.startPc, off, f.len);
      var v := K.Advance(b, f.bits, f.len, pc, off);
      if v.More? {
        StillInPage(b.startPc, pc, f.len);
        PlanFollows(m, c, v.block, v.pc, off + f.len);
        var p := PlanFrom(m, c, b, pc, off);
        if p.Planned? {
          assert p.block.ops[|b.ops|] == p.block.ops[..|v.block.ops|][|b.ops|];
          assert p.block.ops[..|b.ops|] == p.block.ops[..|v.block.ops|][..|b.ops|];
        }
      } else if v.Done? && v.block.ops != b.ops {
        assert Follows(m, c, v.block, |b.ops| + 1, off + f.len);
      }
    }
  }

  /** The operations of `b` from index `idx` on come from code words. */
  ghost predicate OpsIn(code: iset<int>, m: Mem, c: M.Context, b: K.Block, idx: nat, off: nat)
    requires idx <= |b.ops|
    decreases |b.ops| - idx
  {
    idx < |b.ops| ==>
      var pc := ToU64(b.startPc + off);
      && F.FetchIn(code, m, c, pc)
      && (F.PlainFetch(m, c, pc).Insn? ==> OpsIn(code, m, c, b, idx + 1, off + F.PlainFetch(m, c, pc).len))
  }

  /** What a block is planned from includes what its operations come from. */
  lemma {:induction false} PlanReads(code: iset<int>, m: Mem, c: M.Context, b: K.Block, pc: u64, off: nat)
    requires |b.ops| <= K.MAX_BLOCK_SIZE && ReadsFrom(code, m, c, b, pc, off)
    requires pc == ToU64(b.startPc + off) && off == b.byteLen && pc / 4096 == b.startPc / 4096
    ensures var p := PlanFrom(m, c, b, pc, off);
            p.Planned? ==>
              && |b.ops| <= |p.block.ops| && p.block.startPc == b.startPc
              && OpsIn(code, m, c, p.block, |b.ops|, off)
    decreases K.MAX_BLOCK_SIZE - |b.ops|
  {
    hide F.FetchIn, F.PlainFetch, D.Decode, Micro.Transcode, K.Advance, ToU64;
    FetchLength(m, c, pc);
    var f := F.PlainFetch(m, c, pc);
    if f.Insn? {
      AdvanceKeeps(b, f.bits, f.len, pc, off);
      OffsetSum(b.startPc, off, f.len);
      var v := K.Advance(b, f.bits, f.len, pc, off);
      if v.More? {
        StillInPage(b.startPc, pc, f.len);
        PlanReads(code, m, c, v.block, v.pc, off + f.len);
      } else if v.Done? && v.block.ops != b.ops {
        assert OpsIn(code, m, c, v.block, |b.ops| + 1, off + f.len);
      }
    }
  }

  lemma OffsetSum(base: u64, off: nat, len: nat)
    ensures ToU64(ToU64(base + off) + len) == ToU64(base + (off + len))
  {
    var q := (base + off) / TWO_64;
    assert ToU64(base + off) + len == base + (off + len) - TWO_64 * q;
    WrapShift(base + (off + len), q);
  }

  lemma WrapShift(x: int, q: int)
    ensures ToU64(x - TWO_64 * q) == ToU64(x)
  {
  }

  // ---- The block and the interpreter side by side ---------------------------------------------------------------

  /** The machine after `n` interpreter steps, traps taken along the way included. */
  function After(s: I.State, n: nat): I.State
    decreases n
  {
    if n == 0 then s else After(I.StepSingle(s).next, n - 1)
  }

  /** The trap the interpreter reports at step `k`, if any. */
  function TrapAt(s: I.State, k: nat): Option<Trap> {
    I.StepSingle(After(s, k)).err
  }

  ghost predicate NoTraps(s: I.State, n: nat) {
    forall k :: 0 <= k < n ==> TrapAt(s, k).None?
  }

  /** The instruction about to be interpreted is a store that gives up a reservation and is then refused. */
  ghost predicate RefusedAt(s: I.State) {
    match F.PlainFetch(s.mem, I.ContextOf(s.hart), s.hart.pc)
    case NoInsn(_) => false
    case Insn(bits, _) =>
      match D.Decode(bits)
      case Err(_) => false
      case Ok(op) => A.RefusedStore(op, s)
  }

  /** The instruction about to be interpreted has legal function fields, keeps away from page tables and
      does not overwrite code. */
  ghost predicate QuietAt(pt: Tables, code: iset<int>, s: I.State) {
    match F.PlainFetch(s.mem, I.ContextOf(s.hart), s.hart.pc)
    case NoInsn(_) => true
    case Insn(bits, _) =>
      match D.Decode(bits)
      case Err(_) => true
      case Ok(op) => A.Legal(op) && W.DataQuiet(pt, code, s, op)
  }

  /** The first `n` interpreter steps are quiet. */
  ghost predicate QuietFor(pt: Tables, code: iset<int>, s: I.State, n: nat) {
    forall k :: 0 <= k < n ==> QuietAt(pt, code, After(s, k))
  }

  function WithPc(s: I.State, pc: u64): I.State {
    s.(hart := s.hart.(pc := pc))
  }

  /** The two sides are twins after the trap, except that only a refused store makes the reservations differ:
      the block keeps it and the interpreter has given it up. */
  ghost predicate TrapTwins(pt: Tables, code: iset<int>, m0: Mem, u: I.State, v: I.State, refused: bool) {
    && W.Twin(pt, code, m0, u.(hart := u.hart.(reservation := v.hart.reservation)), v)
    && (u.hart.reservation == v.hart.reservation <==> !refused)
  }

  /** What it means for the interpreter, having started at `i`, to be where the block run ended. */
  ghost predicate Simulated(pt: Tables, code: iset<int>, m0: Mem, o: K.Out, i: I.State, n: nat) {
    match o
    case Next(_) => false
    case Continue(u, pc) => NoTraps(i, n) && W.Twin(pt, code, m0, WithPc(u, pc), After(i, n))
    case Exit(u, pc) => NoTraps(i, n) && W.Twin(pt, code, m0, WithPc(u, pc), After(i, n))
    case Trapped(u, t, faultPc) =>
      && n > 0 && NoTraps(i, n - 1) && TrapAt(i, n - 1) == Some(t)
      && TrapTwins(pt, code, m0, I.Fault(WithPc(u, faultPc), t).next, After(i, n), RefusedAt(After(i, n - 1)))
  }

  // ---- One operation against one instruction ----------------------------------------------------------------------

  function OutAt(o: K.Out, pc: u64): K.Out {
    match o
    case Next(u) => K.Next(WithPc(u, pc))
    case Continue(u, p) => K.Continue(WithPc(u, pc), p)
    case Trapped(u, t, p) => K.Trapped(WithPc(u, pc), t, p)
    case Exit(u, p) => K.Exit(WithPc(u, pc), p)
  }

  lemma MicroCases(op: Micro.MicroOp, base: u64, s: I.State)
    ensures var at, o := ToU64(base + Micro.PcOffset(op)), K.MicroStep(op, base, s);
            && (Micro.KindOf(op) == Micro.Leave ==> o == K.Exit(s, at))
            && (Micro.KindOf(op) == Micro.Nothing ==> o == K.Next(s))
            && (Micro.KindOf(op) == Micro.Transfer ==> o == K.TransferOp(op, at, s))
            && (Micro.KindOf(op) == Micro.Access ==> o == K.AccessOp(op, at, s))
            && (Micro.KindOf(op) == Micro.Compute ==>
                  var w := K.AluWrite(op, base, s.hart.regs); o == K.Next(I.SetReg(s, w.rd, w.v)))
  {
    hide K.AluWrite, Micro.PcOffset, Micro.KindOf, K.AccessOp, K.TransferOp, ToU64, I.SetReg;
  }

  /** A block never looks at the hart's pc. */
  lemma MicroIgnoresPc(op: Micro.MicroOp, base: u64, s: I.State, pc: u64)
    ensures K.MicroStep(op, base, WithPc(s, pc)) == OutAt(K.MicroStep(op, base, s), pc)
  {
    hide *;
    MicroCases(op, base, s);
    MicroCases(op, base, WithPc(s, pc));
    SameRegs(s, pc);
    var at := ToU64(base + Micro.PcOffset(op));
    match Micro.KindOf(op)
    case Access => AccessIgnoresPc(op, at, s, pc);
    case Transfer => TransferIgnoresPc(op, at, s, pc);
    case Compute =>
      var w := K.AluWrite(op, base, s.hart.regs);
      SetRegIgnoresPc(s, w.rd, w.v, pc, at);
    case _ => SetRegIgnoresPc(s, 0, 0, pc, at);
  }

  lemma SameRegs(s: I.State, pc: u64)
    ensures WithPc(s, pc).hart.regs == s.hart.regs
  {
  }

  lemma SetRegIgnoresPc(s: I.State, rd: D.Reg, v: u64, pc: u64, at: u64)
    ensures K.Next(I.SetReg(WithPc(s, pc), rd, v)) == OutAt(K.Next(I.SetReg(s, rd, v)), pc)
    ensures K.Next(WithPc(s, pc)) == OutAt(K.Next(s), pc) && K.Exit(WithPc(s, pc), at) == OutAt(K.Exit(s, at), pc)
  {
    hide WriteReg;
  }

  lemma TransferIgnoresPc(op: Micro.MicroOp, at: u64, s: I.State, pc: u64)
    requires Micro.KindOf(op) == Micro.Transfer
    ensures K.TransferOp(op, at, WithPc(s, pc)) == OutAt(K.TransferOp(op, at, s), pc)
  {
    hide WrappingAdd, WriteReg;
  }

  lemma AccessIgnoresPc(op: Micro.MicroOp, at: u64, s: I.State, pc: u64)
    requires Micro.KindOf(op) == Micro.Access
    ensures K.AccessOp(op, at, WithPc(s, pc)) == OutAt(K.AccessOp(op, at, s), pc)
  {
    hide K.LoadOp, K.StoreOp;
    forall rd: D.Reg, rs1: D.Reg, imm: int, w: Width, signed: bool
      ensures K.LoadOp(WithPc(s, pc), rd, rs1, imm, w, signed, at)
              == OutAt(K.LoadOp(s, rd, rs1, imm, w, signed, at), pc)
    {
      LoadIgnoresPc(s, rd, rs1, imm, w, signed, at, pc);
    }
    forall rs1: D.Reg, rs2: D.Reg, imm: int, w: Width
      ensures K.StoreOp(WithPc(s, pc), rs1, rs2, imm, w, at) == OutAt(K.StoreOp(s, rs1, rs2, imm, w, at), pc)
    {
      StoreIgnoresPc(s, rs1, rs2, imm, w, at, pc);
    }
  }

  lemma LoadIgnoresPc(s: I.State, rd: D.Reg, rs1: D.Reg, imm: int, w: Width, signed: bool, at: u64, pc: u64)
    ensures K.LoadOp(WithPc(s, pc), rd, rs1, imm, w, signed, at) == OutAt(K.LoadOp(s, rd, rs1, imm, w, signed, at), pc)
  {
    hide M.Translate, Read, WriteReg, WrappingAdd;
  }

  lemma StoreIgnoresPc(s: I.State, rs1: D.Reg, rs2: D.Reg, imm: int, w: Width, at: u64, pc: u64)
    ensures K.StoreOp(WithPc(s, pc), rs1, rs2, imm, w, at) == OutAt(K.StoreOp(s, rs1, rs2, imm, w, at), pc)
  {
    hide M.Translate, Write, WrappingAdd, ClearConflict;
  }

  /** Contexts with the same instruction space fetch alike. */
  lemma SpaceFetch(m: Mem, c: M.Context, d: M.Context, pc: u64)
    requires F.SpaceOf(c) == F.SpaceOf(d)
    ensures F.PlainFetch(m, c, pc) == F.PlainFetch(m, d, pc)
    ensures forall code: iset<int> :: F.FetchIn(code, m, c, pc) <==> F.FetchIn(code, m, d, pc)
  {
    SpaceResolve(m, c, d, pc);
    SpaceResolve(m, c, d, WrappingAdd(pc, 2));
    hide P.Resolve, Read;
  }

  lemma SpaceResolve(m: Mem, c: M.Context, d: M.Context, va: u64)
    requires F.SpaceOf(c) == F.SpaceOf(d)
    ensures P.Resolve(m, c, va, M.Instruction) == P.Resolve(m, d, va, M.Instruction)
  {
    hide M.FindLeaf, M.Canonical;
  }

  /** The hypotheses of a block run: `s0` holds the memory the block was planned from. */
  ghost predicate Setting(pt: Tables, code: iset<int>, c: M.Context, s0: I.State) {
    F.Sane(pt, s0) && F.Disjoint(pt, code) && I.ContextOf(s0.hart) == c
  }

  /** At the interpreter's state, the plain fetch is the one the block was planned from. */
  lemma SameFetch(pt: Tables, code: iset<int>, c: M.Context, s0: I.State, i: I.State, pc: u64)
    requires Setting(pt, code, c, s0) && Agree(pt, code, s0.mem, i.mem) && F.FetchIn(code, s0.mem, c, pc)
    requires F.SpaceOf(I.ContextOf(i.hart)) == F.SpaceOf(c)
    ensures F.PlainFetch(i.mem, I.ContextOf(i.hart), pc) == F.PlainFetch(s0.mem, c, pc)
    ensures F.FetchIn(code, i.mem, I.ContextOf(i.hart), pc)
  {
    F.KeptFetch(pt, code, s0, i.mem, pc);
    SpaceFetch(i.mem, c, I.ContextOf(i.hart), pc);
    hide *;
  }

  /** The tables of the setting still cover the interpreter's. */
  lemma SameTabled(pt: Tables, code: iset<int>, c: M.Context, s0: I.State, i: I.State)
    requires Setting(pt, code, c, s0) && Agree(pt, code, s0.mem, i.mem)
    requires F.SpaceOf(I.ContextOf(i.hart)) == F.SpaceOf(c)
    ensures F.Tabled(pt, i)
  {
    F.TabledMoves(pt, s0, i);
    hide F.SpaceOf, P.TablesIn, Agree, F.Disjoint;
    F.SaneAgrees(pt, code, i.(mem := s0.mem), i.mem);
  }

  /** Code words cannot be marked. */
  lemma CodeFetch(pt: Tables, code: iset<int>, m: Mem, c: M.Context, pc: u64)
    requires F.Disjoint(pt, code) && F.FetchIn(code, m, c, pc)
    ensures F.FetchIn(Outside(pt), m, c, pc)
  {
    W.CodeOutside(pt, code);
    F.FetchInMore(code, Outside(pt), m, c, pc);
  }

  /** The interpreter's step for a fetched instruction: execution in a state that only got marked. */
  lemma FetchedStep(pt: Tables, code: iset<int>, m0: Mem, e: I.State, i: I.State, bits: u32, len: nat)
    returns (u: I.State)
    requires W.Twin(pt, code, m0, e, i) && F.Disjoint(pt, code) && F.Tabled(pt, i)
    requires F.FetchIn(Outside(pt), i.mem, I.ContextOf(i.hart), i.hart.pc)
    requires F.PlainFetch(i.mem, I.ContextOf(i.hart), i.hart.pc) == F.Insn(bits, len)
    requires D.Decode(bits).Ok?
    ensures W.Twin(pt, code, m0, e, u) && F.OnlyMarked(pt, i, u) && F.Tabled(pt, u)
    ensures I.StepSingle(i) == I.Execute(D.Decode(bits).value, bits, len, u)
  {
    hide F.Tabled, F.Fit, F.FetchIn, F.PlainFetch, I.FetchAndExpand, D.Decode, I.Execute, Agree;
    F.InterpreterFetch(pt, Outside(pt), i);
    hide F.Disjoint;
    u := I.FetchAndExpand(i).s;
    MarkedTwin(pt, code, m0, e, i, u);
  }

  /** Marking one side keeps twins twins. */
  lemma MarkedTwin(pt: Tables, code: iset<int>, m0: Mem, e: I.State, i: I.State, u: I.State)
    requires W.Twin(pt, code, m0, e, i) && F.Disjoint(pt, code) && F.OnlyMarked(pt, i, u) && F.Tabled(pt, i)
    ensures W.Twin(pt, code, m0, e, u)
  {
    W.TwinTabled(pt, code, m0, e, i);
    AgreeRefl(pt, Outside(pt), e.mem);
    W.MarkedTwins(pt, code, m0, e, i, e, u);
    hide F.Fit, F.Tabled, F.Disjoint, Agree;
  }

  /** Quietness is a matter of the tables, so marking does not affect it. */
  lemma QuietMarked(pt: Tables, code: iset<int>, i: I.State, u: I.State, op: D.Op)
    requires F.Sane(pt, i) && F.OnlyMarked(pt, i, u) && W.DataQuiet(pt, code, i, op)
    ensures W.DataQuiet(pt, code, u, op)
  {
    var a := W.AccessOf(op, i.hart.regs);
    if a.Accesses? {
      F.ResolveSame(pt, Outside(pt), i, u.mem, a.addr, a.access);
    }
    hide P.Resolve, Agree, F.Sane;
  }

  /** Twins have the same refused stores. */
  lemma TwinRefused(pt: Tables, code: iset<int>, m0: Mem, e: I.State, i: I.State, op: D.Op)
    requires W.Twin(pt, code, m0, e, i) && F.Disjoint(pt, code) && W.DataQuiet(pt, code, i, op) && F.Tabled(pt, i)
    ensures A.RefusedStore(op, e) == A.RefusedStore(op, i)
  {
    hide I.Translate, P.Resolve, Write, WrappingAdd, Agree, F.Fit, F.Tabled, F.Disjoint, ClearConflict, ToU64, ReadReg,
      I.StoreWidth;
    if op.Store? && I.StoreWidth(op.funct3).Some? {
      assert e.hart == i.hart;
      var addr := WrappingAdd(ReadReg(i.hart.regs, op.rs1), ToU64(op.imm));
      W.TwinTranslate(pt, code, m0, e, i, addr, M.Store);
      var x, y := I.Translate(e, addr, M.Store), I.Translate(i, addr, M.Store);
      hide W.Twin;
      if y.res.Ok? {
        W.TwinWrite(pt, code, m0, x.s, y.s, y.res.value, I.StoreWidth(op.funct3).value, ReadReg(i.hart.regs, op.rs2));
      }
    }
  }

  // ---- The simulation --------------------------------------------------------------------------------------------

  /** What one operation, run in `e`, has to do with the interpreter's step from `i`. */
  ghost predicate InStep(pt: Tables, code: iset<int>, m0: Mem, o: K.Out, i: I.State, next: u64) {
    var x := I.StepSingle(i);
    match o
    case Next(w) => x.err.None? && W.Twin(pt, code, m0, WithPc(w, next), x.next)
    case Continue(w, pc) => x.err.None? && W.Twin(pt, code, m0, WithPc(w, pc), x.next)
    case Trapped(w, t, faultPc) =>
      x.err == Some(t) && TrapTwins(pt, code, m0, I.Fault(WithPc(w, faultPc), t).next, x.next, RefusedAt(i))
    case Exit(w, pc) => pc == i.hart.pc && W.Twin(pt, code, m0, WithPc(w, pc), i)
  }

  /** From matching a step of a twin to being in step. */
  lemma MatchedInStep(pt: Tables, code: iset<int>, m0: Mem, o: K.Out, x: I.Step, e: I.State, i: I.State, next: u64)
    requires A.Matches(OutAt(o, i.hart.pc), x, WithPc(e, i.hart.pc), next, RefusedAt(i))
    requires W.TwinSteps(pt, code, m0, x, I.StepSingle(i))
    requires W.Twin(pt, code, m0, WithPc(e, i.hart.pc), i)
    ensures InStep(pt, code, m0, o, i, next)
  {
    hide W.Twin, I.StepSingle, T.HandleTrap, RefusedAt;
    match o
    case Trapped(w, t, faultPc) =>
      var u := WithPc(w, i.hart.pc);
      assert WithPc(w, faultPc) == u;
      W.SameHart(pt, code, m0, x.next, I.StepSingle(i).next);
      var y := I.Fault(u, t).next;
      assert y.(hart := y.hart.(reservation := x.next.hart.reservation)) == x.next;
    case _ =>
  }

  /** One operation and one interpreted instruction, side by side. */
  lemma OpInStep(pt: Tables, code: iset<int>, m0: Mem, e: I.State, i: I.State,
                 base: u64, off: nat, bits: u32, len: nat)
    requires W.Twin(pt, code, m0, WithPc(e, i.hart.pc), i) && F.Disjoint(pt, code) && F.Tabled(pt, i)
    requires F.FetchIn(Outside(pt), i.mem, I.ContextOf(i.hart), i.hart.pc)
    requires F.PlainFetch(i.mem, I.ContextOf(i.hart), i.hart.pc) == F.Insn(bits, len)
    requires D.Decode(bits).Ok? && QuietAt(pt, code, i)
    requires e.hart.regs[0] == 0 && i.hart.pc == ToU64(base + off)
    ensures InStep(pt, code, m0, K.MicroStep(Micro.Transcode(D.Decode(bits).value, off, len), base, e), i,
                   ToU64(i.hart.pc + len))
  {
    hide F.PlainFetch, D.Decode, Micro.Transcode, K.MicroStep, I.StepSingle, I.Execute, W.Twin, W.TwinSteps,
      A.Legal, A.RefusedStore, W.DataQuiet, F.FetchIn, F.Disjoint, F.Tabled, F.Fit, InStep, A.Matches, F.Sane;
    assert RefusedAt(i) == A.RefusedStore(D.Decode(bits).value, i);
    var op := D.Decode(bits).value;
    var es := WithPc(e, i.hart.pc);
    var u := FetchedStep(pt, code, m0, es, i, bits, len);
    TwinSane(pt, code, m0, es, i);
    QuietMarked(pt, code, i, u, op);
    TwinRefused(pt, code, m0, es, i, op);
    FetchLength(i.mem, I.ContextOf(i.hart), i.hart.pc);
    D.OffsetsEven(bits);
    A.MicroAgrees(op, bits, len, off, base, es);
    MicroIgnoresPc(Micro.Transcode(op, off, len), base, e, i.hart.pc);
    TwinSpace(pt, code, m0, es, i);
    W.TwinExecute(pt, code, m0, es, u, op, bits, len);
    MatchedInStep(pt, code, m0, K.MicroStep(Micro.Transcode(op, off, len), base, e), I.Execute(op, bits, len, es), e, i,
                  ToU64(i.hart.pc + len));
  }

  lemma TwinSane(pt: Tables, code: iset<int>, m0: Mem, e: I.State, i: I.State)
    requires W.Twin(pt, code, m0, e, i) && F.Tabled(pt, i)
    ensures F.Sane(pt, i) && F.Sane(pt, e)
  {
    W.TwinTabled(pt, code, m0, e, i);
    hide *;
  }

  lemma TwinSpace(pt: Tables, code: iset<int>, m0: Mem, e: I.State, i: I.State)
    requires W.Twin(pt, code, m0, e, i)
    ensures I.ContextOf(e.hart) == I.ContextOf(i.hart) && e.hart == i.hart
  {
    hide Agree, F.Fit;
  }

  /** Register 0 still holds 0, mode and control registers are those of `s`, and a trap is one that
      handlers get to see. */
  ghost predicate Keeps(o: K.Out, s: I.State) {
    && o.s.hart.regs[0] == 0 && I.ContextOf(o.s.hart) == I.ContextOf(s.hart)
    && (o.Trapped? ==> T.CauseOf(o.trap).Architectural?)
  }

  /** An operation changes neither the address space nor register 0, and hands its instruction back
      exactly if it is of that kind. */
  lemma OpKeeps(op: Micro.MicroOp, base: u64, s: I.State)
    requires s.hart.regs[0] == 0
    ensures Keeps(K.MicroStep(op, base, s), s)
    ensures K.MicroStep(op, base, s).Exit? <==> Micro.KindOf(op) == Micro.Leave
  {
    hide K.AluWrite, Micro.PcOffset, Micro.KindOf, K.TransferOp, K.AccessOp, T.CauseOf, Keeps;
    var at := ToU64(base + Micro.PcOffset(op));
    if Micro.KindOf(op) == Micro.Access {
      AccessKeeps(op, at, s);
    } else if Micro.KindOf(op) == Micro.Transfer {
      TransferKeeps(op, at, s);
    } else if Micro.KindOf(op) == Micro.Compute {
      var w := K.AluWrite(op, base, s.hart.regs);
      SetRegKeeps(s, w.rd, w.v);
    } else {
      SetRegKeeps(s, 0, 0);
    }
  }

  lemma SetRegKeeps(s: I.State, rd: D.Reg, v: u64)
    requires s.hart.regs[0] == 0
    ensures Keeps(K.Next(I.SetReg(s, rd, v)), s) && Keeps(K.Next(s), s)
    ensures forall pc: u64 :: Keeps(K.Exit(s, pc), s)
  {
  }

  lemma TransferKeeps(op: Micro.MicroOp, at: u64, s: I.State)
    requires Micro.KindOf(op) == Micro.Transfer && s.hart.regs[0] == 0
    ensures Keeps(K.TransferOp(op, at, s), s)
  {
    hide WrappingAdd, ToU64;
  }

  lemma AccessKeeps(op: Micro.MicroOp, at: u64, s: I.State)
    requires Micro.KindOf(op) == Micro.Access && s.hart.regs[0] == 0
    ensures Keeps(K.AccessOp(op, at, s), s) && !K.AccessOp(op, at, s).Exit?
  {
    hide K.LoadOp, K.StoreOp, Keeps;
    forall rd: D.Reg, rs1: D.Reg, imm: int, w: Width, signed: bool
      ensures Keeps(K.LoadOp(s, rd, rs1, imm, w, signed, at), s) && !K.LoadOp(s, rd, rs1, imm, w, signed, at).Exit?
    {
      LoadKeeps(s, rd, rs1, imm, w, signed, at);
    }
    forall rs1: D.Reg, rs2: D.Reg, imm: int, w: Width
      ensures Keeps(K.StoreOp(s, rs1, rs2, imm, w, at), s) && !K.StoreOp(s, rs1, rs2, imm, w, at).Exit?
    {
      StoreKeeps(s, rs1, rs2, imm, w, at);
    }
  }

  lemma LoadKeeps(s: I.State, rd: D.Reg, rs1: D.Reg, imm: int, w: Width, signed: bool, at: u64)
    requires s.hart.regs[0] == 0
    ensures Keeps(K.LoadOp(s, rd, rs1, imm, w, signed, at), s) && !K.LoadOp(s, rd, rs1, imm, w, signed, at).Exit?
  {
    hide M.Translate, I.Translate, WrappingAdd, InDram, Extract, I.SextTo64, ToU64;
    TranslateTrap(s, WrappingAdd(s.hart.regs[rs1], ToU64(imm)), M.Load);
  }

  /** Translation reports page faults and access faults only. */
  lemma TranslateTrap(s: I.State, addr: u64, access: M.Access)
    ensures var t := I.Translate(s, addr, access);
            t.s.hart == s.hart && (t.res.Err? ==> T.CauseOf(t.res.trap).Architectural?)
  {
    hide M.FindLeaf, M.Permitted, M.Canonical, Write, M.PhysAddr, M.ResultPpn;
  }

  lemma StoreKeeps(s: I.State, rs1: D.Reg, rs2: D.Reg, imm: int, w: Width, at: u64)
    requires s.hart.regs[0] == 0
    ensures Keeps(K.StoreOp(s, rs1, rs2, imm, w, at), s) && !K.StoreOp(s, rs1, rs2, imm, w, at).Exit?
  {
    hide M.Translate, I.Translate, WrappingAdd, ClearConflict, InDram, Insert, ToU64;
    TranslateTrap(s, WrappingAdd(s.hart.regs[rs1], ToU64(imm)), M.Store);
  }

  /** Quietness of a run is quietness of its first step and of the rest. */
  lemma QuietTail(pt: Tables, code: iset<int>, i: I.State, n: nat)
    requires QuietFor(pt, code, i, n) && n > 0
    ensures QuietAt(pt, code, i) && QuietFor(pt, code, I.StepSingle(i).next, n - 1)
  {
    hide QuietAt, I.StepSingle;
    assert After(i, 0) == i;
    forall k | 0 <= k < n - 1
      ensures QuietAt(pt, code, After(I.StepSingle(i).next, k))
    {
      assert After(I.StepSingle(i).next, k) == After(i, k + 1);
    }
  }

  lemma NoTrapsCons(i: I.State, n: nat)
    requires I.StepSingle(i).err.None? && NoTraps(I.StepSingle(i).next, n)
    ensures NoTraps(i, n + 1)
  {
    hide I.StepSingle;
    forall k | 0 <= k < n + 1
      ensures TrapAt(i, k).None?
    {
      if k > 0 {
        assert After(i, k) == After(I.StepSingle(i).next, k - 1);
        assert TrapAt(I.StepSingle(i).next, k - 1).None?;
      }
    }
  }

  /** A simulation of the rest of the run extends to one more step in front of it. */
  lemma SimulatedCons(pt: Tables, code: iset<int>, m0: Mem, o: K.Out, i: I.State, n: nat)
    requires I.StepSingle(i).err.None? && Simulated(pt, code, m0, o, I.StepSingle(i).next, n)
    ensures Simulated(pt, code, m0, o, i, n + 1)
  {
    hide I.StepSingle, W.Twin, I.Fault, RefusedAt, TrapTwins;
    var j := I.StepSingle(i).next;
    assert After(i, n + 1) == After(j, n);
    if o.Trapped? {
      NoTrapsCons(i, n - 1);
      assert After(i, n) == After(j, n - 1);
    } else if !o.Next? {
      NoTrapsCons(i, n);
    }
  }

  /** A simulation of exactly one step. */
  lemma SimulatedOne(pt: Tables, code: iset<int>, m0: Mem, o: K.Out, i: I.State, next: u64)
    requires InStep(pt, code, m0, o, i, next) && !o.Next?
    ensures Simulated(pt, code, m0, o, i, if o.Exit? then 0 else 1)
  {
    hide I.StepSingle, W.Twin, I.Fault, RefusedAt, TrapTwins;
    assert After(i, 0) == i;
    assert After(i, 1) == After(I.StepSingle(i).next, 0) == I.StepSingle(i).next;
  }

  lemma EmptyRun(pt: Tables, code: iset<int>, m0: Mem, b: K.Block, e: I.State, i: I.State)
    requires W.Twin(pt, code, m0, WithPc(e, i.hart.pc), i) && i.hart.pc == ToU64(b.startPc + b.byteLen)
    ensures Simulated(pt, code, m0, K.RunOps(b, |b.ops|, e), i, 0)
  {
    hide W.Twin, I.StepSingle;
    assert After(i, 0) == i;
  }

  /** An operation that hands its instruction back reports that instruction's address. */
  lemma ExitPoint(op: D.Op, off: nat, len: nat, base: u64, s: I.State)
    requires s.hart.regs[0] == 0
    ensures var o := K.MicroStep(Micro.Transcode(op, off, len), base, s);
            o.Exit? ==> o == K.Exit(s, ToU64(base + off))
  {
    var m := Micro.Transcode(op, off, len);
    if Micro.KindOf(m) == Micro.Leave {
      LeaveOffset(op, off, len);
    } else {
      OpKeeps(m, base, s);
    }
    hide Micro.Transcode, Micro.KindOf, Micro.PcOffset, K.AluWrite, K.AccessOp, K.TransferOp, ToU64;
  }

  lemma LeaveOffset(op: D.Op, off: nat, len: nat)
    requires Micro.KindOf(Micro.Transcode(op, off, len)) == Micro.Leave
    ensures Micro.PcOffset(Micro.Transcode(op, off, len)) == off
  {
  }

  /** The operation at `idx` and the interpreter's step, if the interpreter still finds the instruction the
      operation was compiled from; an operation that is handed back need not be looked at. */
  lemma StepInStep(pt: Tables, code: iset<int>, m0: Mem, b: K.Block, idx: nat, off: nat,
                   e: I.State, i: I.State, bits: u32, len: nat)
    requires F.Disjoint(pt, code) && idx < |b.ops|
    requires D.Decode(bits).Ok? && b.ops[idx] == Micro.Transcode(D.Decode(bits).value, off, len)
    requires W.Twin(pt, code, m0, WithPc(e, i.hart.pc), i)
    requires e.hart.regs[0] == 0 && i.hart.pc == ToU64(b.startPc + off)
    requires K.MicroStep(b.ops[idx], b.startPc, e).Exit? ||
             (F.Tabled(pt, i) && QuietAt(pt, code, i)
              && F.PlainFetch(i.mem, I.ContextOf(i.hart), i.hart.pc) == F.Insn(bits, len)
              && F.FetchIn(Outside(pt), i.mem, I.ContextOf(i.hart), i.hart.pc))
    ensures InStep(pt, code, m0, K.MicroStep(b.ops[idx], b.startPc, e), i, ToU64(i.hart.pc + len))
  {
    hide F.PlainFetch, D.Decode, Micro.Transcode, K.MicroStep, QuietAt, F.Tabled, I.StepSingle, F.Fit, F.FetchIn, Agree,
      F.Disjoint;
    if K.MicroStep(b.ops[idx], b.startPc, e).Exit? {
      ExitPoint(D.Decode(bits).value, off, len, b.startPc, e);
    } else {
      OpInStep(pt, code, m0, e, i, b.startPc, off, bits, len);
    }
  }

  /** After an operation that fell through, both sides are at the next instruction of the same space. */
  lemma NextInStep(pt: Tables, code: iset<int>, m0: Mem, op: Micro.MicroOp, base: u64,
                   e: I.State, i: I.State, next: u64)
    requires W.Twin(pt, code, m0, WithPc(e, i.hart.pc), i) && e.hart.regs[0] == 0
    requires K.MicroStep(op, base, e).Next? && InStep(pt, code, m0, K.MicroStep(op, base, e), i, next)
    ensures var w, j := K.MicroStep(op, base, e).s, I.StepSingle(i).next;
            && I.StepSingle(i).err.None? && j.hart.pc == next
            && W.Twin(pt, code, m0, WithPc(w, j.hart.pc), j)
            && w.hart.regs[0] == 0
            && I.ContextOf(j.hart) == I.ContextOf(i.hart)
  {
    OpKeeps(op, base, e);
    var w, j := K.MicroStep(op, base, e).s, I.StepSingle(i).next;
    assert WithPc(w, next).hart == j.hart;
    assert WithPc(e, i.hart.pc).hart == i.hart;
    hide K.MicroStep, I.StepSingle, W.Twin;
  }

  /** In the setting the interpreter finds what the block was planned from. */
  lemma SettingStep(pt: Tables, code: iset<int>, c: M.Context, s0: I.State, b: K.Block, idx: nat, off: nat, e: I.State,
                    i: I.State)
    requires Setting(pt, code, c, s0) && idx < |b.ops| && Follows(s0.mem, c, b, idx, off)
             && OpsIn(code, s0.mem, c, b, idx, off)
    requires W.Twin(pt, code, s0.mem, WithPc(e, i.hart.pc), i)
    requires F.SpaceOf(I.ContextOf(i.hart)) == F.SpaceOf(c)
    requires e.hart.regs[0] == 0 && i.hart.pc == ToU64(b.startPc + off)
    requires K.MicroStep(b.ops[idx], b.startPc, e).Exit? || QuietAt(pt, code, i)
    ensures var f := F.PlainFetch(s0.mem, c, i.hart.pc);
            f.Insn? && InStep(pt, code, s0.mem, K.MicroStep(b.ops[idx], b.startPc, e), i, ToU64(i.hart.pc + f.len))
  {
    hide F.PlainFetch, D.Decode, Micro.Transcode, K.MicroStep, QuietAt, F.SpaceOf, I.StepSingle, F.Fit, F.FetchIn,
      Agree, F.Tabled, InStep, F.Sane, F.Disjoint;
    var f := F.PlainFetch(s0.mem, c, i.hart.pc);
    SameFetch(pt, code, c, s0, i, i.hart.pc);
    SameTabled(pt, code, c, s0, i);
    CodeFetch(pt, code, i.mem, I.ContextOf(i.hart), i.hart.pc);
    StepInStep(pt, code, s0.mem, b, idx, off, e, i, f.bits, f.len);
  }

  /** Block simulation from operation `idx` on: what the operations do to `e` the interpreter does to `i`
      in as many instructions. */
  lemma {:induction false} OpsSimulate(pt: Tables, code: iset<int>, c: M.Context, s0: I.State, b: K.Block, idx: nat,
                                       off: nat,
                                       e: I.State, i: I.State)
    requires Setting(pt, code, c, s0) && idx <= |b.ops| && Follows(s0.mem, c, b, idx, off)
             && OpsIn(code, s0.mem, c, b, idx, off)
    requires W.Twin(pt, code, s0.mem, WithPc(e, i.hart.pc), i)
    requires F.SpaceOf(I.ContextOf(i.hart)) == F.SpaceOf(c)
    requires e.hart.regs[0] == 0 && i.hart.pc == ToU64(b.startPc + off)
    requires QuietFor(pt, code, i, K.Steps(b, idx, e))
    ensures Simulated(pt, code, s0.mem, K.RunOps(b, idx, e), i, K.Steps(b, idx, e))
    decreases |b.ops| - idx
  {
    hide F.PlainFetch, D.Decode, Micro.Transcode, K.MicroStep, W.Twin, QuietAt, QuietFor, F.SpaceOf,
      I.StepSingle, Simulated, F.FetchIn, I.ContextOf, Setting;
    if idx == |b.ops| {
      EmptyRun(pt, code, s0.mem, b, e, i);
    } else {
      var f := F.PlainFetch(s0.mem, c, i.hart.pc);
      var o := K.MicroStep(b.ops[idx], b.startPc, e);
      if !o.Exit? {
        QuietTail(pt, code, i, K.Steps(b, idx, e));
      }
      SettingStep(pt, code, c, s0, b, idx, off, e, i);
      if o.Next? {
        NextInStep(pt, code, s0.mem, b.ops[idx], b.startPc, e, i, ToU64(i.hart.pc + f.len));
        OffsetSum(b.startPc, off, f.len);
        OpsSimulate(pt, code, c, s0, b, idx + 1, off + f.len, o.s, I.StepSingle(i).next);
        SimulatedCons(pt, code, s0.mem, K.RunOps(b, idx + 1, o.s), i, K.Steps(b, idx + 1, o.s));
      } else {
        SimulatedOne(pt, code, s0.mem, o, i, ToU64(i.hart.pc + f.len));
      }
    }
  }

  /** A whole run keeps the address space and register 0. */
  lemma {:induction false} RunKeeps(b: K.Block, idx: nat, s: I.State)
    requires idx <= |b.ops| && s.hart.regs[0] == 0
    ensures Keeps(K.RunOps(b, idx, s), s)
    decreases |b.ops| - idx
  {
    if idx < |b.ops| {
      var o := K.MicroStep(b.ops[idx], b.startPc, s);
      OpKeeps(b.ops[idx], b.startPc, s);
      if o.Next? {
        RunKeeps(b, idx + 1, o.s);
      }
    }
    hide K.MicroStep, I.ContextOf, T.CauseOf;
  }
}
