/** The compiler and the block runner together: block correctness, the layout of blocks, and exactly
    where the compiler's traps and the interpreter's differ. */
module BlockTheorems {
  import opened Base
  import opened Memory
  import M = Mmu
  import P = MmuProofs
  import D = Decoder
  import opened HartState
  import Micro
  import T = Traps
  import I = Interpreter
  import K = Block
  import A = MicroAgreement
  import F = FetchProofs
  import W = Twins
  import C = BlockCorrect

  // ---- Compiling and planning ------------------------------------------------------------------------------

  /** What `compile` returns depends only on tables and code, and it leaves nothing but marks behind. */
  lemma CompilePlans(pt: Tables, code: iset<int>, s: I.State, generation: nat)
    requires F.Sane(pt, s) && F.Disjoint(pt, code) && C.ReadsIn(code, s.mem, I.ContextOf(s.hart), s.hart.pc)
    ensures var r := K.Compile(s, s.hart.pc, generation);
            C.SamePlan(r, C.PlanFor(s.mem, I.ContextOf(s.hart), s.hart.pc, generation)) && F.OnlyMarked(pt, s, r.s)
  {
    hide I.Translate, P.Resolve, F.Sane, F.OnlyMarked, F.Disjoint, C.ReadsFrom, C.PlanFrom, K.CompileFrom;
    F.TranslateOk(pt, s, s.hart.pc, M.Instruction);
    var t := I.Translate(s, s.hart.pc, M.Instruction);
    if t.res.Ok? {
      C.CompileIsPlan(pt, code, s, t.s, K.Block(s.hart.pc, t.res.value, [], 0, None, generation), s.hart.pc, 0);
    }
  }

  /** Plans depend on page tables (up to marks), code words and the address space only: while those stay,
      compiling again later, from any state, yields the same block. */
  lemma KeptPlan(pt: Tables, code: iset<int>, c: M.Context, s0: I.State, i: I.State, pc: u64, generation: nat)
    requires C.Setting(pt, code, c, s0)
    requires Agree(pt, code, s0.mem, i.mem) && C.ReadsIn(code, s0.mem, c, pc)
    requires F.SpaceOf(I.ContextOf(i.hart)) == F.SpaceOf(c)
    ensures C.PlanFor(i.mem, I.ContextOf(i.hart), pc, generation) == C.PlanFor(s0.mem, c, pc, generation)
    ensures C.ReadsIn(code, i.mem, I.ContextOf(i.hart), pc)
  {
    hide P.Resolve, Agree, F.Sane, F.SpaceOf, F.Disjoint, F.FetchIn, C.PlanFrom;
    var d := I.ContextOf(i.hart);
    forall pa: u64, g: nat
      ensures C.ReadsFrom(code, i.mem, d, K.Block(pc, pa, [], 0, None, g), pc, 0)
      ensures C.PlanFrom(i.mem, d, K.Block(pc, pa, [], 0, None, g), pc, 0)
              == C.PlanFrom(s0.mem, c, K.Block(pc, pa, [], 0, None, g), pc, 0)
    {
      KeptPlanFrom(pt, code, c, s0, i, K.Block(pc, pa, [], 0, None, g), pc, 0);
    }
    F.ResolveSame(pt, code, s0, i.mem, pc, M.Instruction);
    C.SpaceResolve(i.mem, c, d, pc);
  }

  lemma {:induction false} KeptPlanFrom(pt: Tables, code: iset<int>, c: M.Context, s0: I.State, i: I.State,
                                        b: K.Block, pc: u64, off: nat)
    requires C.Setting(pt, code, c, s0)
    requires Agree(pt, code, s0.mem, i.mem) && F.SpaceOf(I.ContextOf(i.hart)) == F.SpaceOf(c)
    requires |b.ops| <= K.MAX_BLOCK_SIZE && C.ReadsFrom(code, s0.mem, c, b, pc, off)
    ensures C.PlanFrom(i.mem, I.ContextOf(i.hart), b, pc, off) == C.PlanFrom(s0.mem, c, b, pc, off)
    ensures C.ReadsFrom(code, i.mem, I.ContextOf(i.hart), b, pc, off)
    decreases K.MAX_BLOCK_SIZE - |b.ops|
  {
    hide F.PlainFetch, Agree, F.Sane, F.SpaceOf, F.Disjoint, F.FetchIn, K.Advance, ToU64;
    C.SameFetch(pt, code, c, s0, i, pc);
    var v := C.PlanMove(s0.mem, c, b, pc, off);
    if v.More? {
      var f := F.PlainFetch(s0.mem, c, pc);
      KeptPlanFrom(pt, code, c, s0, i, v.block, v.pc, off + f.len);
    }
  }

  // ---- Layout --------------------------------------------------------------------------------------------------

  /** No operation before the last leaves the block sideways: it computes, accesses memory, or exits. */
  ghost predicate StraightUpTo(b: K.Block, n: nat)
    requires n <= |b.ops|
  {
    forall k :: 0 <= k < n ==> Micro.KindOf(b.ops[k]) != Micro.Transfer
  }

  /** The recorded successor is the fall-through address of a block without a final transfer, or the
      target of its final JAL. */
  ghost predicate Chained(b: K.Block) {
    b.next.Some? ==>
      || (StraightUpTo(b, |b.ops|) && b.next.value == ToU64(b.startPc + b.byteLen))
      || (|b.ops| > 0 && StraightUpTo(b, |b.ops| - 1)
          && var last := b.ops[|b.ops| - 1];
             last.Jal? && b.next.value == WrappingAdd(ToU64(b.startPc + last.pcOffset), ToU64(last.imm)))
  }

  lemma {:induction false} PlanChains(m: Mem, c: M.Context, b: K.Block, pc: u64, off: nat)
    requires |b.ops| <= K.MAX_BLOCK_SIZE && StraightUpTo(b, |b.ops|) && b.next.None?
    requires pc == ToU64(b.startPc + off) && off == b.byteLen && pc / 4096 == b.startPc / 4096
    requires b.byteLen <= 4 * |b.ops|
    ensures var p := C.PlanFrom(m, c, b, pc, off);
            p.Planned? ==> Chained(p.block) && p.block.byteLen <= 4 * |p.block.ops|
    decreases K.MAX_BLOCK_SIZE - |b.ops|
  {
    hide F.PlainFetch, K.Advance, ToU64, Micro.KindOf;
    C.FetchLength(m, c, pc);
    var f := F.PlainFetch(m, c, pc);
    if f.Insn? {
      AdvanceChains(b, f.bits, f.len, pc, off);
      var v := K.Advance(b, f.bits, f.len, pc, off);
      if v.More? {
        C.StillInPage(b.startPc, pc, f.len);
        PlanChains(m, c, v.block, v.pc, off + f.len);
      }
    }
  }

  lemma AdvanceChains(b: K.Block, insn: u32, len: nat, pc: u64, off: nat)
    requires |b.ops| <= K.MAX_BLOCK_SIZE && StraightUpTo(b, |b.ops|) && b.next.None?
    requires pc == ToU64(b.startPc + off) && off == b.byteLen && b.byteLen <= 4 * |b.ops| && len <= 4
    ensures var v := K.Advance(b, insn, len, pc, off);
            && (v.Done? ==> Chained(v.block) && v.block.byteLen <= 4 * |v.block.ops|)
            && (v.More? ==>
                  && StraightUpTo(v.block, |v.block.ops|) && v.block.next.None? && v.block.startPc == b.startPc
                  && v.block.byteLen == off + len && v.pc == ToU64(b.startPc + (off + len))
                  && v.block.byteLen <= 4 * |v.block.ops|)
  {
    hide Micro.Transcode, D.Decode, ToU64, Micro.KindOf, Micro.IsTerminator, K.NextPage, StraightUpTo;
    if D.Decode(insn).Ok? {
      var op := D.Decode(insn).value;
      var micro := Micro.Transcode(op, off, len);
      C.OffsetSum(b.startPc, off, len);
      TerminatorKinds(micro);
      JalTranscoded(op, off, len);
      AppendStraight(b, micro, len, b.next);
      AppendStraight(b, micro, len, Some(ToU64(pc + len)));
      AppendStraight(b, micro, len, K.JumpTarget(op, pc));
      SameOps(b, Some(pc));
    }
  }

  lemma SameOps(b: K.Block, next: Option<u64>)
    requires StraightUpTo(b, |b.ops|)
    ensures StraightUpTo(b.(next := next), |b.ops|)
  {
    hide Micro.KindOf;
  }

  /** A block that runs straight so far runs straight up to the operation appended, and through it unless
      it transfers control. */
  lemma AppendStraight(b: K.Block, micro: Micro.MicroOp, len: nat, next: Option<u64>)
    requires StraightUpTo(b, |b.ops|)
    ensures var longer := K.Appended(b, micro, len).(next := next);
            && |longer.ops| == |b.ops| + 1 && StraightUpTo(longer, |b.ops|)
            && (Micro.KindOf(micro) != Micro.Transfer ==> StraightUpTo(longer, |longer.ops|))
  {
    hide Micro.KindOf;
    var longer := K.Appended(b, micro, len).(next := next);
    assert longer.ops[..|b.ops|] == b.ops;
  }

  lemma TerminatorKinds(m: Micro.MicroOp)
    ensures !Micro.IsTerminator(m) ==> Micro.KindOf(m) != Micro.Transfer
  {
  }

  lemma JalTranscoded(op: D.Op, off: nat, len: nat)
    ensures op.Jal? ==> Micro.Transcode(op, off, len) == Micro.Jal(op.rd, op.imm, off, len)
  {
  }

  /** The compiled block: at most 64 operations and 256 bytes, each operation the micro-operation of the
      instruction at its offset, every instruction starting in the first one's page, and a recorded
      successor that is where the block goes. */
  lemma Layout(m: Mem, c: M.Context, pc: u64, generation: nat)
    ensures var p := C.PlanFor(m, c, pc, generation);
            p.Planned? ==>
              var b := p.block;
              && b.startPc == pc && b.generation == generation
              && P.Resolve(m, c, pc, M.Instruction) == Ok(b.startPa)
              && 0 < |b.ops| <= K.MAX_BLOCK_SIZE && b.byteLen <= 4 * |b.ops|
              && C.Follows(m, c, b, 0, 0) && Chained(b)
  {
    hide P.Resolve, C.Follows, C.PlanFrom, Chained;
    var r := P.Resolve(m, c, pc, M.Instruction);
    if r.Ok? {
      var b := K.Block(pc, r.value, [], 0, None, generation);
      C.PlanFollows(m, c, b, pc, 0);
      PlanChains(m, c, b, pc, 0);
    }
  }

  /** A run that continues at `n` although a successor `t` was recorded continues at `t`: WFI, which does
      not end a block, hands control back before the end is reached. */
  lemma {:induction false} SuccessorReached(b: K.Block, idx: nat, s: I.State)
    requires Chained(b) && b.next.Some? && idx <= |b.ops|
    requires idx < |b.ops| || StraightUpTo(b, |b.ops|)
    ensures var o := K.RunOps(b, idx, s); o.Continue? ==> o.pc == b.next.value
    decreases |b.ops| - idx
  {
    hide K.TransferOp, K.AccessOp, K.AluWrite, Micro.KindOf, Micro.PcOffset, WrappingAdd, ToU64;
    if idx < |b.ops| {
      var op := b.ops[idx];
      var o := K.MicroStep(op, b.startPc, s);
      OnlyTransfersContinue(op, b.startPc, s);
      if o.Next? {
        assert idx + 1 == |b.ops| ==> StraightUpTo(b, |b.ops|);
        SuccessorReached(b, idx + 1, o.s);
      }
    } else if |b.ops| > 0 {
      OnlyTransfersContinue(b.ops[idx - 1], b.startPc, s);
    }
  }

  lemma OnlyTransfersContinue(op: Micro.MicroOp, base: u64, s: I.State)
    ensures var o := K.MicroStep(op, base, s);
            && (o.Continue? ==> Micro.KindOf(op) == Micro.Transfer)
            && (Micro.KindOf(op) == Micro.Transfer ==> o.Continue?)
            && (op.Jal? ==> o.Continue? && o.pc == WrappingAdd(ToU64(base + op.pcOffset), ToU64(op.imm)))
  {
    hide K.AluWrite, M.Translate, Read, Write, WrappingAdd, ToU64;
  }

  /** Passes of the compilation loop. */
  function Passes(s: I.State, b: K.Block, pc: u64, off: nat): (n: nat)
    requires |b.ops| <= K.MAX_BLOCK_SIZE
    ensures 1 <= n <= K.MAX_BLOCK_SIZE + 1 - |b.ops|
    decreases K.MAX_BLOCK_SIZE - |b.ops|
  {
    var f := K.FetchInsn(s, pc);
    var v := if f.Fetched? then K.Advance(b, f.insn, f.len, pc, off) else K.Stopped(b, f.trap);
    if v.More? then 1 + Passes(f.s, v.block, v.pc, off + f.len) else 1
  }

  // ---- Block correctness ---------------------------------------------------------------------------------------

  lemma WrapSmall(x: u64)
    ensures ToU64(x) == x
  {
  }

  lemma PlanForReads(code: iset<int>, m: Mem, c: M.Context, pc: u64, generation: nat)
    requires C.ReadsIn(code, m, c, pc) && C.PlanFor(m, c, pc, generation).Planned?
    ensures C.OpsIn(code, m, c, C.PlanFor(m, c, pc, generation).block, 0, 0)
  {
    hide P.Resolve, C.PlanFrom, C.OpsIn, C.ReadsFrom;
    WrapSmall(pc);
    C.PlanReads(code, m, c, K.Block(pc, P.Resolve(m, c, pc, M.Instruction).value, [], 0, None, generation), pc, 0);
  }

  /** A planned block, run anywhere in the space it was planned for, does what the interpreter does. */
  lemma PlannedRun(pt: Tables, code: iset<int>, c: M.Context, s0: I.State, pc: u64, generation: nat, e: I.State,
                   i: I.State)
    requires C.Setting(pt, code, c, s0) && C.ReadsIn(code, s0.mem, c, pc)
    requires C.PlanFor(s0.mem, c, pc, generation).Planned?
    requires W.Twin(pt, code, s0.mem, C.WithPc(e, i.hart.pc), i)
    requires F.SpaceOf(I.ContextOf(i.hart)) == F.SpaceOf(c)
    requires e.hart.regs[0] == 0 && i.hart.pc == pc
    requires C.QuietFor(pt, code, i, K.Steps(C.PlanFor(s0.mem, c, pc, generation).block, 0, e))
    ensures var b := C.PlanFor(s0.mem, c, pc, generation).block;
            C.Simulated(pt, code, s0.mem, K.RunBlock(b, e), i, K.Steps(b, 0, e))
  {
    hide C.PlanFor, W.Twin, F.SpaceOf, C.QuietFor, C.Simulated, C.Follows, C.ReadsIn, F.Sane, F.Disjoint, Chained,
      P.Resolve, K.Steps, K.RunOps, Agree, ToU64, P.TablesIn, P.Coherent;
    assert i.hart.pc == ToU64(pc + 0) by {
      WrapSmall(pc);
    }
    Layout(s0.mem, c, pc, generation);
    var b := C.PlanFor(s0.mem, c, pc, generation).block;
    PlanForReads(code, s0.mem, c, pc, generation);
    C.OpsSimulate(pt, code, c, s0, b, 0, 0, e, i);
  }

  /** The trap a plan reports is the interpreter's first trap, unless the address is odd and does not
      translate: then the interpreter reports the misalignment and the compiler the page fault. */
  lemma PlanTrapIsFirst(pt: Tables, code: iset<int>, i: I.State, generation: nat)
    requires F.Sane(pt, i) && F.Disjoint(pt, code) && C.ReadsIn(code, i.mem, I.ContextOf(i.hart), i.hart.pc)
    requires C.PlanFor(i.mem, I.ContextOf(i.hart), i.hart.pc, generation).PlanTrap?
    ensures var t := C.PlanFor(i.mem, I.ContextOf(i.hart), i.hart.pc, generation).trap;
            && (I.StepSingle(i).err == Some(t)
                <==> i.hart.pc % 2 == 0 || P.Resolve(i.mem, I.ContextOf(i.hart), i.hart.pc, M.Instruction).Ok?)
            && exists u, x :: F.OnlyMarked(pt, i, u) && I.StepSingle(i) == I.Fault(u, x)
  {
    hide P.Resolve, F.Sane, F.Disjoint, F.OnlyMarked, I.FetchAndExpand, I.Execute, F.PlainFetch, T.HandleTrap,
      C.PlanFrom;
    var c, pc := I.ContextOf(i.hart), i.hart.pc;
    C.ReadsFirst(code, i.mem, c, pc);
    F.InterpreterFetch(pt, code, i);
    PlanTrapFetch(i.mem, c, pc, generation);
    C.FetchLength(i.mem, c, pc);
    var u := I.FetchAndExpand(i).s;
    assert F.OnlyMarked(pt, i, u) && I.StepSingle(i) == I.Fault(u, I.StepSingle(i).err.value);
  }

  /** Where the trap of a plan comes from. */
  lemma PlanTrapFetch(m: Mem, c: M.Context, pc: u64, generation: nat)
    requires C.PlanFor(m, c, pc, generation).PlanTrap?
    ensures var t, r, f := C.PlanFor(m, c, pc, generation).trap, P.Resolve(m, c, pc, M.Instruction),
            F.PlainFetch(m, c, pc);
            && (f.Insn? ==> D.Decode(f.bits) == Err(t))
            && (f.NoInsn? ==> (f.trap == t <==> pc % 2 == 0 || r.Ok?))
  {
    hide P.Resolve, D.Decode, D.ExpandCompressed, Read, Micro.Transcode, Micro.IsTerminator, K.NextPage;
    var r := P.Resolve(m, c, pc, M.Instruction);
    if r.Ok? {
      var b := K.Block(pc, r.value, [], 0, None, generation);
      var v := C.PlanMove(m, c, b, pc, 0);
      if v.More? {
        NonEmptyPlans(m, c, v.block, v.pc, F.PlainFetch(m, c, pc).len);
      }
      hide F.PlainFetch;
    } else {
      ResolveTrap(m, c, pc);
    }
  }

  lemma ResolveTrap(m: Mem, c: M.Context, pc: u64)
    ensures var r := P.Resolve(m, c, pc, M.Instruction); r.Err? ==> !r.trap.InstructionAddressMisaligned?
  {
    hide M.FindLeaf, M.Canonical;
  }

  /** Once there is an operation, compilation ends in a block. */
  lemma {:induction false} NonEmptyPlans(m: Mem, c: M.Context, b: K.Block, pc: u64, off: nat)
    requires 0 < |b.ops| <= K.MAX_BLOCK_SIZE
    ensures C.PlanFrom(m, c, b, pc, off).Planned?
    decreases K.MAX_BLOCK_SIZE - |b.ops|
  {
    hide F.PlainFetch, D.Decode, Micro.Transcode;
    var v := C.PlanMove(m, c, b, pc, off);
    if v.More? {
      NonEmptyPlans(m, c, v.block, v.pc, off + F.PlainFetch(m, c, pc).len);
    }
  }

  /** A state and the same state after some marking are twins. */
  lemma MarkedIsTwin(pt: Tables, code: iset<int>, s: I.State, e: I.State)
    requires F.Sane(pt, s) && F.OnlyMarked(pt, s, e)
    ensures W.Twin(pt, code, s.mem, e, s)
  {
    AgreeSymmetric(pt, Outside(pt), s.mem, e.mem);
    AgreeRefl(pt, code, s.mem);
    hide Agree, F.Fit, F.Tabled;
  }

  /** Two states marked from the same one are twins. */
  lemma BothMarked(pt: Tables, code: iset<int>, s: I.State, e: I.State, u: I.State)
    requires F.Sane(pt, s) && F.Disjoint(pt, code) && F.OnlyMarked(pt, s, e) && F.OnlyMarked(pt, s, u)
    ensures W.Twin(pt, code, s.mem, e, u)
  {
    MarkedIsTwin(pt, code, s, e);
    C.MarkedTwin(pt, code, s.mem, e, s, u);
    hide *;
  }

  /** Block correctness.  Compile at the current pc and run the result: registers, control registers,
      mode, reservation, memory, next pc and trap are those the interpreter reaches after as many
      instructions, up to TLB contents and accessed/dirty marks; only after a store refused by the bus do
      the reservations differ.  A compilation trap is the interpreter's own unless the address is odd and
      untranslatable. */
  lemma BlockCorrect(pt: Tables, code: iset<int>, s: I.State, generation: nat)
    requires F.Sane(pt, s) && F.Disjoint(pt, code) && C.ReadsIn(code, s.mem, I.ContextOf(s.hart), s.hart.pc)
    requires s.hart.regs[0] == 0
    requires var r := K.Compile(s, s.hart.pc, generation);
             r.Compiled? ==> C.QuietFor(pt, code, s, K.Steps(r.block, 0, r.s))
    ensures var r := K.Compile(s, s.hart.pc, generation);
            r.Compiled? ==>
              && K.Steps(r.block, 0, r.s) <= K.MAX_BLOCK_SIZE
              && C.Simulated(pt, code, s.mem, K.RunBlock(r.block, r.s), s, K.Steps(r.block, 0, r.s))
    ensures var r := K.Compile(s, s.hart.pc, generation);
            r.CompileTrap? ==>
              && (C.TrapAt(s, 0) == Some(r.trap)
                  <==> s.hart.pc % 2 == 0 || P.Resolve(s.mem, I.ContextOf(s.hart), s.hart.pc, M.Instruction).Ok?)
              && (C.TrapAt(s, 0) == Some(r.trap) ==>
                    W.Twin(pt, code, s.mem, I.Fault(r.s, r.trap).next, C.After(s, 1)))
  {
    hide F.Sane, F.Disjoint, C.ReadsIn, K.Compile, C.QuietFor, C.Simulated, C.PlanFor, P.Resolve, F.OnlyMarked, W.Twin,
      K.RunBlock, I.StepSingle, K.Steps, T.HandleTrap, F.SpaceOf, C.Follows, Chained, I.Fault;
    var c := I.ContextOf(s.hart);
    var r := K.Compile(s, s.hart.pc, generation);
    CompilePlans(pt, code, s, generation);
    if r.Compiled? {
      MarkedIsTwin(pt, code, s, r.s);
      C.MarkedHart(pt, s, r.s);
      assert C.WithPc(r.s, s.hart.pc) == r.s;
      Layout(s.mem, c, s.hart.pc, generation);
      PlannedRun(pt, code, c, s, s.hart.pc, generation, r.s, s);
    } else {
      PlanTrapIsFirst(pt, code, s, generation);
      StepsStart(s);
      var u, x :| F.OnlyMarked(pt, s, u) && I.StepSingle(s) == I.Fault(u, x);
      FaultReports(u, x);
      BothMarked(pt, code, s, r.s, u);
      W.TwinFault(pt, code, s.mem, r.s, u, r.trap);
    }
  }

  lemma FaultReports(u: I.State, x: Trap)
    ensures I.Fault(u, x).err == Some(x)
  {
  }

  lemma StepsStart(s: I.State)
    ensures C.TrapAt(s, 0) == I.StepSingle(s).err && C.After(s, 1) == I.StepSingle(s).next
  {
    hide I.StepSingle;
    assert C.After(I.StepSingle(s).next, 0) == I.StepSingle(s).next;
  }

  // ---- Identity translation ----------------------------------------------------------------------------------------

  /** Equal harts and equal memory contents, everywhere. */
  ghost predicate SameMachine(u: I.State, v: I.State) {
    u.hart == v.hart && u.mem.base == v.mem.base && u.mem.size == v.mem.size && forall w :: u.mem.At(w) == v.mem.At(w)
  }

  /** The same machine, except for the reservation after a refused store. */
  ghost predicate SameButReservation(u: I.State, v: I.State, refused: bool) {
    && SameMachine(u.(hart := u.hart.(reservation := v.hart.reservation)), v)
    && (u.hart.reservation == v.hart.reservation <==> !refused)
  }

  lemma NoTablesTwin(code: iset<int>, m0: Mem, u: I.State, v: I.State)
    requires W.Twin(NO_TABLES, code, m0, u, v)
    ensures SameMachine(u, v)
  {
    hide Unpack, F.Fit;
    forall w
      ensures u.mem.At(w) == v.mem.At(w)
    {
      assert w in Outside(NO_TABLES);
    }
  }

  /** The interpreter's machine after `n` steps from `s` is the one the block run ended in. */
  ghost predicate SameEnd(o: K.Out, s: I.State, n: nat) {
    match o
    case Next(_) => false
    case Continue(u, pc) => C.NoTraps(s, n) && SameMachine(C.WithPc(u, pc), C.After(s, n))
    case Exit(u, pc) => C.NoTraps(s, n) && SameMachine(C.WithPc(u, pc), C.After(s, n))
    case Trapped(u, t, faultPc) =>
      && n > 0 && C.NoTraps(s, n - 1) && C.TrapAt(s, n - 1) == Some(t)
      && SameButReservation(I.Fault(C.WithPc(u, faultPc), t).next, C.After(s, n), C.RefusedAt(C.After(s, n - 1)))
  }

  ghost predicate SameCompiled(r: K.Compiled, s: I.State) {
    match r
    case Compiled(e, b) => SameEnd(K.RunBlock(b, e), s, K.Steps(b, 0, e))
    case CompileTrap(e, t) => C.TrapAt(s, 0) == Some(t) && SameMachine(I.Fault(e, t).next, C.After(s, 1))
  }

  /** In Machine mode or with translation off, a block run and the interpreter end in the same machine. */
  lemma BareBlockCorrect(code: iset<int>, s: I.State, generation: nat)
    requires F.SpaceOf(I.ContextOf(s.hart)) == F.Identity && s.hart.regs[0] == 0
    requires C.ReadsIn(code, s.mem, I.ContextOf(s.hart), s.hart.pc)
    requires var r := K.Compile(s, s.hart.pc, generation);
             r.Compiled? ==> C.QuietFor(NO_TABLES, code, s, K.Steps(r.block, 0, r.s))
    ensures SameCompiled(K.Compile(s, s.hart.pc, generation), s)
  {
    hide K.Compile, C.QuietFor, K.RunBlock, W.Twin, K.Steps, I.StepSingle, C.ReadsIn, I.Fault, SameMachine, C.NoTraps,
      C.TrapAt, C.After, C.RefusedAt;
    F.SaneWithoutTables(s);
    BlockCorrect(NO_TABLES, code, s, generation);
    var c := I.ContextOf(s.hart);
    assert P.Resolve(s.mem, c, s.hart.pc, M.Instruction).Ok?;
    forall u: I.State, v: I.State | W.Twin(NO_TABLES, code, s.mem, u, v)
      ensures SameMachine(u, v)
    {
      NoTablesTwin(code, s.mem, u, v);
    }
  }

  // ---- Where the two sides differ -----------------------------------------------------------------------------------

  /** An operation whose function fields are illegal does nothing in a block and traps when interpreted. */
  lemma IllegalDiffers(raw: u32, len: nat, off: nat, base: u64, s: I.State)
    requires D.Decode(raw).Ok? && !A.Legal(D.Decode(raw).value)
    ensures var op := D.Decode(raw).value;
            K.MicroStep(Micro.Transcode(op, off, len), base, s) == K.Next(s) && I.Execute(op, raw, len, s).err.Some?
  {
    var op := D.Decode(raw).value;
    A.LegalMeansNotDropped(op, off, len);
    assert Micro.Transcode(op, off, len) == Micro.Fence;
    IllegalTraps(raw, len, s);
    hide *;
    FenceIsNext(base, s);
  }

  lemma FenceIsNext(base: u64, s: I.State)
    ensures K.MicroStep(Micro.Fence, base, s) == K.Next(s)
  {
  }

  lemma IllegalTraps(raw: u32, len: nat, s: I.State)
    requires D.Decode(raw).Ok? && !A.Legal(D.Decode(raw).value)
    ensures I.Execute(D.Decode(raw).value, raw, len, s).err.Some?
  {
    var op := D.Decode(raw).value;
    if op.System? {
      DecodedSystem(raw);
      IllegalPrivileged(raw, len, s);
    } else {
      DecodedAmo(raw);
      IllegalElsewhere(op, raw, len, s);
    }
    hide *;
  }

  lemma DecodedSystem(raw: u32)
    ensures var d := D.Decode(raw); d.Ok? && d.value.System? ==>
              raw % 0x80 == 0x73 && d.value.imm == raw / 0x10_0000 && d.value.funct3 == raw / 0x1000 % 8
  {
  }

  lemma DecodedAmo(raw: u32)
    ensures var d := D.Decode(raw); d.Ok? && d.value.Amo? ==> 0 <= d.value.funct5 < 0x20
  {
  }

  lemma IllegalPrivileged(raw: u32, len: nat, s: I.State)
    requires D.Decode(raw).Ok? && D.Decode(raw).value.System? && !A.Legal(D.Decode(raw).value)
    requires raw % 0x80 == 0x73 && D.Decode(raw).value.imm == raw / 0x10_0000
             && D.Decode(raw).value.funct3 == raw / 0x1000 % 8
    ensures I.Execute(D.Decode(raw).value, raw, len, s).err.Some?
  {
    hide D.Decode, T.HandleTrap, I.ExecCsr, T.Mret, T.Sret;
    assert raw / 0x10_0000 / 0x20 == raw / 0x200_0000;
  }

  lemma IllegalElsewhere(op: D.Op, raw: u32, len: nat, s: I.State)
    requires !A.Legal(op) && !op.System?
    requires op.Amo? ==> 0 <= op.funct5 < 0x20
    ensures I.Execute(op, raw, len, s).err.Some?
  {
    hide T.HandleTrap, I.Translate, I.ExecAmo, WriteReg, ReadReg, WrappingAdd, ToU64, Write, ClearConflict;
    if op.Amo? {
      IllegalAmo(s, op.rd, op.rs1, op.rs2, op.funct3, op.funct5, raw, ToU64(s.hart.pc + len));
    }
  }

  lemma IllegalAmo(s: I.State, rd: D.Reg, rs1: D.Reg, rs2: D.Reg, funct3: int, funct5: int, raw: u32, next: u64)
    requires 0 <= funct5 < 0x20 && (funct5 == 0 || funct5 % 4 != 0)
             && !(funct5 == 0 || funct5 == 1 || funct5 == 2 || funct5 == 3)
    ensures I.ExecAmo(s, rd, rs1, rs2, funct3, funct5, raw, next).err.Some?
  {
    hide T.HandleTrap, I.Translate, I.ExecLr, I.ExecSc, ReadReg, I.SignedAt, I.Widen, WrappingAdd;
  }

  /** The two sides correspond on exactly the legal encodings. */
  lemma AgreementExact(raw: u32, len: nat, off: nat, base: u64, s: I.State)
    requires D.Decode(raw).Ok? && s.hart.regs[0] == 0 && s.hart.pc == ToU64(base + off) && s.hart.pc % 2 == 0
    ensures var op := D.Decode(raw).value;
            A.Matches(K.MicroStep(Micro.Transcode(op, off, len), base, s), I.Execute(op, raw, len, s), s,
                      ToU64(s.hart.pc + len), A.RefusedStore(op, s))
            <==> A.Legal(op)
  {
    hide D.Decode, K.MicroStep, Micro.Transcode, I.Execute, A.Legal, A.RefusedStore, A.TookTrap;
    if A.Legal(D.Decode(raw).value) {
      D.OffsetsEven(raw);
      A.MicroAgrees(D.Decode(raw).value, raw, len, off, base, s);
    } else {
      IllegalDiffers(raw, len, off, base, s);
    }
  }
}
