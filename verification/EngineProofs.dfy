/** Runs of block-enabled steps are stuttering simulations of runs of the interpreter. */
module EngineProofs {
  import opened Base
  import opened Memory
  import M = Mmu
  import P = MmuProofs
  import D = Decoder
  import opened HartState
  import T = Traps
  import I = Interpreter
  import K = Block
  import A = MicroAgreement
  import F = FetchProofs
  import W = Twins
  import C = BlockCorrect
  import B = BlockTheorems
  import opened ProgramText
  import E = Engine

  // ---- Runs of the interpreter --------------------------------------------------------------------------------

  /** The traps the interpreter reports in `n` steps, in order. */
  function InterpreterTraps(s: I.State, n: nat): seq<Trap>
    decreases n
  {
    if n == 0 then [] else E.Reported(I.StepSingle(s).err) + InterpreterTraps(I.StepSingle(s).next, n - 1)
  }

  lemma {:induction false} TrapsSum(s: I.State, a: nat, b: nat)
    ensures InterpreterTraps(s, a + b) == InterpreterTraps(s, a) + InterpreterTraps(C.After(s, a), b)
    decreases a
  {
    hide I.StepSingle;
    if a > 0 {
      TrapsSum(I.StepSingle(s).next, a - 1, b);
    }
  }

  lemma {:induction false} QuietRunReportsNothing(s: I.State, n: nat)
    requires C.NoTraps(s, n)
    ensures InterpreterTraps(s, n) == []
    decreases n
  {
    hide I.StepSingle;
    if n > 0 {
      assert C.TrapAt(s, 0).None?;
      var t := I.StepSingle(s).next;
      forall k | 0 <= k < n - 1
        ensures C.TrapAt(t, k).None?
      {
        assert C.After(s, k + 1) == C.After(t, k);
        assert C.TrapAt(s, k + 1).None?;
      }
      QuietRunReportsNothing(t, n - 1);
    }
  }

  lemma LastStepReports(s: I.State, n: nat, t: Trap)
    requires n > 0 && C.NoTraps(s, n - 1) && C.TrapAt(s, n - 1) == Some(t)
    ensures InterpreterTraps(s, n) == [t]
  {
    hide I.StepSingle;
    QuietRunReportsNothing(s, n - 1);
    TrapsSum(s, n - 1, 1);
    assert InterpreterTraps(C.After(s, n - 1), 1) == [t] + InterpreterTraps(I.StepSingle(C.After(s, n - 1)).next, 0);
  }

  // ---- The invariant ----------------------------------------------------------------------------------------------

  /** The same machine up to TLB contents and page-table marks. */
  ghost predicate Pair(pt: Tables, u: I.State, v: I.State) {
    W.Twin(pt, iset{}, v.mem, u, v)
  }

  lemma PairOf(pt: Tables, m0: Mem, u: I.State, v: I.State)
    requires W.Twin(pt, iset{}, m0, u, v)
    ensures Pair(pt, u, v)
  {
    AgreeRefl(pt, iset{}, v.mem);
    hide Agree, F.Fit;
  }

  lemma NothingKept(pt: Tables)
    ensures F.Disjoint(pt, iset{}) && F.Disjoint(pt, Outside(pt))
  {
  }

  /** A block for `pc` made of instructions in `text`. */
  ghost predicate BlockGood(text: iset<Line>, pc: u64, b: K.Block) {
    b.startPc == pc && Holds(text, b, 0, 0)
  }

  ghost predicate CacheGood(text: iset<Line>, x: E.Engine) {
    forall pc :: pc in x.blocks && x.blocks[pc].generation == x.generation ==> BlockGood(text, pc, x.blocks[pc])
  }

  ghost predicate DecodeGood(d: E.DecodeCache) {
    forall slot :: slot in d ==> D.Decode(d[slot].raw) == Ok(d[slot].op)
  }

  /** The engine is in the interpreter's state, and its caches hold nothing but instructions of `text`. */
  ghost predicate InSync(pt: Tables, text: iset<Line>, x: E.Engine, i: I.State) {
    && Pair(pt, x.s, i)
    && x.s.hart.regs[0] == 0
    && CacheGood(text, x)
    && DecodeGood(x.decoded)
  }

  lemma CacheMore(text: iset<Line>, more: iset<Line>, x: E.Engine)
    requires CacheGood(text, x) && text <= more
    ensures CacheGood(more, x)
  {
    forall pc | pc in x.blocks && x.blocks[pc].generation == x.generation
      ensures BlockGood(more, pc, x.blocks[pc])
    {
      assert BlockGood(text, pc, x.blocks[pc]);
      HoldsMore(text, more, x.blocks[pc], 0, 0);
    }
    hide Holds;
  }

  lemma SyncMore(pt: Tables, text: iset<Line>, more: iset<Line>, x: E.Engine, i: I.State)
    requires InSync(pt, text, x, i) && text <= more
    ensures InSync(pt, more, x, i)
  {
    CacheMore(text, more, x);
    hide W.Twin, CacheGood, DecodeGood;
  }

  // ---- One interpreted instruction ----------------------------------------------------------------------------------

  /** The decode cache is transparent. */
  lemma DecodeCacheTransparent(x: E.Engine)
    requires DecodeGood(x.decoded)
    ensures var r := E.StepSingle(x);
            && I.StepSingle(x.s) == I.Step(r.x.s, r.err)
            && DecodeGood(r.x.decoded) && r.x.blocks == x.blocks && r.x.generation == x.generation
            && r.ran == 1
  {
    hide I.FetchAndExpand, I.Execute, D.Decode, T.HandleTrap, E.FlushesDecode;
  }

  /** Twins fetch the same instruction. */
  lemma TwinFetch(pt: Tables, code: iset<int>, m0: Mem, e: I.State, i: I.State)
    requires W.Twin(pt, code, m0, e, i) && F.Disjoint(pt, code) && F.Tabled(pt, i)
    requires F.FetchIn(Outside(pt), i.mem, I.ContextOf(i.hart), i.hart.pc)
    ensures F.Sane(pt, e) && F.Sane(pt, i) && e.hart == i.hart
    ensures var f, g := I.FetchAndExpand(e), I.FetchAndExpand(i);
            && W.Twin(pt, code, m0, f.s, g.s)
            && F.SameInsn(f, F.PlainFetch(i.mem, I.ContextOf(i.hart), i.hart.pc))
            && F.SameInsn(g, F.PlainFetch(i.mem, I.ContextOf(i.hart), i.hart.pc))
            && F.OnlyMarked(pt, i, g.s)
  {
    NothingKept(pt);
    hide Agree, F.Fit, F.Tabled, F.FetchIn, F.Disjoint, I.FetchAndExpand, F.PlainFetch, F.SameInsn, F.OnlyMarked;
    W.TwinTabled(pt, code, m0, e, i);
    AgreeSymmetric(pt, Outside(pt), e.mem, i.mem);
    F.KeptFetch(pt, Outside(pt), i, e.mem, i.hart.pc);
    F.InterpreterFetch(pt, Outside(pt), i);
    F.InterpreterFetch(pt, Outside(pt), e);
    W.MarkedTwins(pt, code, m0, e, i, I.FetchAndExpand(e).s, I.FetchAndExpand(i).s);
  }

  /** Twins take the same quiet step and remain twins. */
  lemma TwinStep(pt: Tables, code: iset<int>, m0: Mem, e: I.State, i: I.State)
    requires W.Twin(pt, code, m0, e, i) && F.Disjoint(pt, code) && C.QuietAt(pt, code, i) && F.Tabled(pt, i)
    requires F.FetchIn(Outside(pt), i.mem, I.ContextOf(i.hart), i.hart.pc)
    ensures W.TwinSteps(pt, code, m0, I.StepSingle(e), I.StepSingle(i))
  {
    hide W.Twin, W.TwinSteps, F.Sane, F.FetchIn, F.Disjoint, F.Tabled, I.FetchAndExpand, F.PlainFetch, F.OnlyMarked,
      I.Execute, I.Fault, D.Decode, A.Legal, W.DataQuiet, A.RefusedStore, I.ContextOf;
    TwinFetch(pt, code, m0, e, i);
    var f, g := I.FetchAndExpand(e), I.FetchAndExpand(i);
    match F.PlainFetch(i.mem, I.ContextOf(i.hart), i.hart.pc)
    case NoInsn(t) => W.TwinFault(pt, code, m0, f.s, g.s, t);
    case Insn(bits, len) =>
      match D.Decode(bits)
      case Err(t) => W.TwinFault(pt, code, m0, f.s, g.s, t);
      case Ok(op) =>
        C.QuietMarked(pt, code, i, g.s, op);
        MarkedTabled(pt, i, g.s);
        W.TwinExecute(pt, code, m0, f.s, g.s, op, bits, len);
  }

  lemma MarkedTabled(pt: Tables, s: I.State, t: I.State)
    requires F.OnlyMarked(pt, s, t)
    ensures F.Tabled(pt, t) && F.Sane(pt, t) && t.hart == s.hart
  {
    hide Agree, F.Fit, F.Tabled;
  }

  /** Register 0 keeps holding 0. */
  lemma ZeroStays(s: I.State)
    requires s.hart.regs[0] == 0
    ensures I.StepSingle(s).next.hart.regs[0] == 0
  {
    hide I.Execute, D.Decode, I.Translate, Read, D.ExpandCompressed;
    FetchKeepsHart(s);
    match I.FetchAndExpand(s)
    case NotFetched(u, t) => TrapKeepsRegs(u, t);
    case Fetched(u, bits, len) =>
      match D.Decode(bits)
      case Err(t) => TrapKeepsRegs(u, t);
      case Ok(op) => ExecuteKeepsZero(op, bits, len, u);
    hide I.FetchAndExpand, I.Fault;
  }

  lemma FetchKeepsHart(s: I.State)
    ensures I.FetchAndExpand(s).s.hart == s.hart
  {
    hide M.Translate, Read, D.ExpandCompressed;
  }

  lemma TrapKeepsRegs(s: I.State, t: Trap)
    ensures I.Fault(s, t).next.hart.regs == s.hart.regs
  {
    hide T.StatusEnterM, T.StatusEnterS, T.CauseWord, T.TrapVector;
  }

  lemma ExecuteKeepsZero(op: D.Op, raw: u32, len: nat, s: I.State)
    requires s.hart.regs[0] == 0
    ensures I.Execute(op, raw, len, s).next.hart.regs[0] == 0
  {
    hide I.ExecLoad, I.ExecStore, I.ExecAmo, I.ExecPrivileged, I.ExecCsr, I.Fault, WrappingAdd, ToU64,
      I.OpImmValue, I.OpValue, I.OpImm32Value, I.Op32Value, I.Taken;
    forall u: I.State, t: Trap
      ensures I.Fault(u, t).next.hart.regs == u.hart.regs
    {
      TrapKeepsRegs(u, t);
    }
    match op
    case Load(rd, rs1, imm, funct3) => LoadKeepsZero(s, rd, rs1, imm, funct3, raw, ToU64(s.hart.pc + len));
    case Store(rs1, rs2, imm, funct3) => StoreKeepsZero(s, rs1, rs2, imm, funct3, raw, ToU64(s.hart.pc + len));
    case Amo(rd, rs1, rs2, funct3, funct5, _, _) => AmoKeepsZero(s, rd, rs1, rs2, funct3, funct5, raw,
                                                                 ToU64(s.hart.pc + len));
    case System(rd, rs1, funct3, imm) =>
      PrivilegedKeepsZero(s, raw, ToU64(s.hart.pc + len));
      CsrKeepsZero(s, rd, rs1, funct3, imm % 0x1000, ToU64(s.hart.pc + len));
    case _ =>
  }

  lemma LoadKeepsZero(s: I.State, rd: D.Reg, rs1: D.Reg, imm: int, funct3: int, raw: u32, next: u64)
    requires s.hart.regs[0] == 0
    ensures I.ExecLoad(s, rd, rs1, imm, funct3, raw, next).next.hart.regs[0] == 0
  {
    hide M.Translate, Read, WrappingAdd, I.Fault;
    forall u: I.State, t: Trap
      ensures I.Fault(u, t).next.hart.regs == u.hart.regs
    {
      TrapKeepsRegs(u, t);
    }
  }

  lemma StoreKeepsZero(s: I.State, rs1: D.Reg, rs2: D.Reg, imm: int, funct3: int, raw: u32, next: u64)
    requires s.hart.regs[0] == 0
    ensures I.ExecStore(s, rs1, rs2, imm, funct3, raw, next).next.hart.regs[0] == 0
  {
    hide M.Translate, Write, WrappingAdd, I.Fault;
    forall u: I.State, t: Trap
      ensures I.Fault(u, t).next.hart.regs == u.hart.regs
    {
      TrapKeepsRegs(u, t);
    }
  }

  lemma AmoKeepsZero(s: I.State, rd: D.Reg, rs1: D.Reg, rs2: D.Reg, funct3: int, funct5: int, raw: u32, next: u64)
    requires s.hart.regs[0] == 0
    ensures I.ExecAmo(s, rd, rs1, rs2, funct3, funct5, raw, next).next.hart.regs[0] == 0
  {
    hide M.Translate, Write, Read, I.Fault, I.AmoValue;
    forall u: I.State, t: Trap
      ensures I.Fault(u, t).next.hart.regs == u.hart.regs
    {
      TrapKeepsRegs(u, t);
    }
  }

  lemma PrivilegedKeepsZero(s: I.State, raw: u32, next: u64)
    ensures I.ExecPrivileged(s, raw, next).next.hart.regs == s.hart.regs
  {
    hide I.Fault, I.IsSfenceVma, T.StatusMret, T.StatusSret, T.MppMode;
    forall u: I.State, t: Trap
      ensures I.Fault(u, t).next.hart.regs == u.hart.regs
    {
      TrapKeepsRegs(u, t);
    }
  }

  lemma CsrKeepsZero(s: I.State, rd: D.Reg, rs1: D.Reg, funct3: int, csr: CsrAddr, next: u64)
    requires s.hart.regs[0] == 0
    ensures I.ExecCsr(s, rd, rs1, funct3, csr, next).next.hart.regs[0] == 0
  {
    hide I.Fault, I.CsrOld, I.CsrNew, CsrWrite;
    forall u: I.State, t: Trap
      ensures I.Fault(u, t).next.hart.regs == u.hart.regs
    {
      TrapKeepsRegs(u, t);
    }
  }

  /** In sync, the engine's interpreter and the interpreter do the same. */
  lemma SingleInSync(pt: Tables, text: iset<Line>, x: E.Engine, i: I.State)
    requires InSync(pt, text, x, i) && GoodAt(pt, text, i)
    ensures var r := E.StepSingle(x);
            && InSync(pt, text, r.x, C.After(i, 1)) && r.x.generation == x.generation && r.ran == 1
            && E.Reported(r.err) == InterpreterTraps(i, 1)
  {
    hide C.QuietAt, P.Resolve, I.StepSingle, E.StepSingle, BlockGood, F.FetchIn, F.Disjoint, F.Tabled, C.ReadsIn,
      C.RefusedAt, D.Decode, I.ContextOf, W.Twin, F.PlainFetch;
    NothingKept(pt);
    C.ReadsFirst(Outside(pt), i.mem, I.ContextOf(i.hart), i.hart.pc);
    TwinStep(pt, iset{}, i.mem, x.s, i);
    DecodeCacheTransparent(x);
    ZeroStays(x.s);
    B.StepsStart(i);
    var j := I.StepSingle(i).next;
    PairOf(pt, i.mem, I.StepSingle(x.s).next, j);
    assert InterpreterTraps(i, 1) == E.Reported(I.StepSingle(i).err) + InterpreterTraps(j, 0);
  }

  // ---- Chains of blocks ---------------------------------------------------------------------------------------------

  function ReportedBy(o: E.Outcome): seq<Trap> {
    match o
    case Finished(_, err, _) => E.Reported(err)
    case Fallback(_, _) => []
  }

  /** After `n` instructions the interpreter is where the outcome is, having reported the same traps. */
  ghost predicate Reaches(pt: Tables, text: iset<Line>, x: E.Engine, o: E.Outcome, i: I.State, n: nat) {
    && InSync(pt, Known(text, i, n), o.x, C.After(i, n))
    && ReportedBy(o) == InterpreterTraps(i, n)
    && o.x.generation == x.generation
  }

  /** Running the block, whatever its end, is in sync. */
  lemma BlockEndInSync(pt: Tables, text: iset<Line>, x: E.Engine, i: I.State, b: K.Block)
    requires InSync(pt, text, x, i) && BlockGood(text, i.hart.pc, b)
    requires GoodFor(pt, text, i, K.Steps(b, 0, x.s))
    ensures var n := K.Steps(b, 0, x.s);
            match K.RunBlock(b, x.s)
            case Next(_) => false
            case Continue(u, pc) =>
              InSync(pt, Known(text, i, n), x.(s := C.WithPc(u, pc)), C.After(i, n)) && InterpreterTraps(i, n) == []
            case Exit(u, pc) =>
              InSync(pt, Known(text, i, n), x.(s := C.WithPc(u, pc)), C.After(i, n)) && InterpreterTraps(i, n) == []
            case Trapped(u, t, faultPc) =>
              && InSync(pt, Known(text, i, n), x.(s := u.(hart := T.HandleTrap(u.hart, t, faultPc))), C.After(i, n))
              && InterpreterTraps(i, n) == [t]
  {
    hide W.Twin, Pair, BlockGood, CacheGood, DecodeGood, T.HandleTrap, GoodFor, Known, C.TrapTwins, NoneRefused,
      C.RefusedAt, K.Steps, C.After, C.NoTraps, C.TrapAt, K.RunOps, T.CauseOf, I.StepSingle, I.ContextOf,
          InterpreterTraps;
    BlockSimulated(pt, text, x, i, b);
    C.RunKeeps(b, 0, x.s);
    var n := K.Steps(b, 0, x.s);
    KnownGrows(text, i, n);
    CacheMore(text, Known(text, i, n), x);
    match K.RunBlock(b, x.s)
    case Continue(u, pc) =>
      QuietRunReportsNothing(i, n);
      PairOf(pt, i.mem, C.WithPc(u, pc), C.After(i, n));
      CacheKeeps(Known(text, i, n), x, C.WithPc(u, pc));
    case Exit(u, pc) =>
      QuietRunReportsNothing(i, n);
      PairOf(pt, i.mem, C.WithPc(u, pc), C.After(i, n));
      CacheKeeps(Known(text, i, n), x, C.WithPc(u, pc));
    case Trapped(u, t, faultPc) =>
      LastStepReports(i, n, t);
      StalePc(u, t, faultPc);
      GoodIsUnrefused(pt, text, i, n);
      TrapIsTwin(pt, i.mem, I.Fault(C.WithPc(u, faultPc), t).next, i, n);
      PairOf(pt, i.mem, I.Fault(C.WithPc(u, faultPc), t).next, C.After(i, n));
      CacheKeeps(Known(text, i, n), x, I.Fault(C.WithPc(u, faultPc), t).next);
  }

  lemma TrapIsTwin(pt: Tables, m0: Mem, u: I.State, i: I.State, n: nat)
    requires n > 0 && NoneRefused(i, n) && C.TrapTwins(pt, iset{}, m0, u, C.After(i, n), C.RefusedAt(C.After(i, n - 1)))
    ensures W.Twin(pt, iset{}, m0, u, C.After(i, n))
  {
    hide W.Twin, C.RefusedAt, C.After;
    assert u.(hart := u.hart.(reservation := u.hart.reservation)) == u;
  }

  lemma BlockSimulated(pt: Tables, text: iset<Line>, x: E.Engine, i: I.State, b: K.Block)
    requires InSync(pt, text, x, i) && BlockGood(text, i.hart.pc, b)
    requires GoodFor(pt, text, i, K.Steps(b, 0, x.s))
    ensures C.Simulated(pt, iset{}, i.mem, K.RunBlock(b, x.s), i, K.Steps(b, 0, x.s))
  {
    hide W.Twin, GoodFor, CacheGood, DecodeGood, K.Steps, C.Simulated, K.RunOps, I.ContextOf, Holds;
    C.TwinSpace(pt, iset{}, i.mem, x.s, i);
    assert C.WithPc(x.s, i.hart.pc) == x.s;
    B.WrapSmall(i.hart.pc);
    TextSimulates(pt, text, i.mem, b, 0, 0, x.s, i);
  }

  /** Trap entry does not look at the stale pc a block leaves behind. */
  lemma StalePc(u: I.State, t: Trap, faultPc: u64)
    requires T.CauseOf(t).Architectural?
    ensures u.(hart := T.HandleTrap(u.hart, t, faultPc)) == I.Fault(C.WithPc(u, faultPc), t).next
    ensures T.HandleTrap(u.hart, t, faultPc).regs == u.hart.regs
  {
    hide T.StatusEnterM, T.StatusEnterS, T.CauseWord, T.TrapVector, T.CauseOf;
  }

  /** What was reached after `b` more instructions is reached after `a + b` from the start, if the first
      `a` reported nothing. */
  lemma ReachesLater(pt: Tables, text: iset<Line>, x: E.Engine, y: E.Engine, o: E.Outcome, i: I.State, a: nat, b: nat)
    requires InterpreterTraps(i, a) == [] && y.generation == x.generation
    requires Reaches(pt, Known(text, i, a), y, o, C.After(i, a), b)
    ensures Reaches(pt, text, x, o, i, a + b)
  {
    hide InSync, C.After, InterpreterTraps, Known;
    AfterSum(i, a, b);
    TrapsSum(i, a, b);
    KnownSum(text, i, a, b);
  }

  /** A chain of blocks, started in sync, ends in sync. */
  lemma {:induction false} ChainInSync(pt: Tables, text: iset<Line>, x: E.Engine, i: I.State, b: K.Block,
                                       chain: nat, evicted: set<u64>, ran: nat)
    requires chain < E.MAX_CHAIN_DEPTH
    requires InSync(pt, text, x, i) && BlockGood(text, i.hart.pc, b)
    requires var o := E.RunChained(x, b, chain, evicted, ran); GoodFor(pt, text, i, o.ran - ran)
    ensures var o := E.RunChained(x, b, chain, evicted, ran); Reaches(pt, text, x, o, i, o.ran - ran)
    decreases E.MAX_CHAIN_DEPTH - chain, 0
  {
    hide InSync, BlockGood, GoodFor, Known, K.RunBlock, K.Steps, C.After, InterpreterTraps, E.TryBlock, I.ContextOf,
      T.HandleTrap;
    var o := E.RunChained(x, b, chain, evicted, ran);
    var n := K.Steps(b, 0, x.s);
    GoodSuffix(pt, text, i, n, o.ran - ran - n);
    BlockEndInSync(pt, text, x, i, b);
    var out := K.RunBlock(b, x.s);
    if out.Continue? {
      var y := x.(s := C.WithPc(out.s, out.pc));
      if chain + 1 < E.MAX_CHAIN_DEPTH && b.next == Some(out.pc) {
        TryInSync(pt, Known(text, i, n), y, C.After(i, n), chain + 1, evicted, ran + n);
        ReachesLater(pt, text, x, y, o, i, n, o.ran - ran - n);
      }
    }
  }

  /** The text includes what compiling now would read. */
  ghost predicate Widened(text: iset<Line>, i: I.State) {
    Window(i) <= text
  }

  /** A chain entered through the cache, or through the compiler, ends in sync. */
  lemma {:induction false} TryInSync(pt: Tables, text: iset<Line>, x: E.Engine, i: I.State,
                                     chain: nat, evicted: set<u64>, ran: nat)
    requires chain < E.MAX_CHAIN_DEPTH && InSync(pt, text, x, i)
    requires chain == 0 ==> GoodAt(pt, text, i) && Widened(text, i)
    requires var o := E.TryBlock(x, chain, evicted, ran); GoodFor(pt, text, i, o.ran - ran)
    ensures var o := E.TryBlock(x, chain, evicted, ran); Reaches(pt, text, x, o, i, o.ran - ran)
    decreases E.MAX_CHAIN_DEPTH - chain, 1
  {
    hide InSync, BlockGood, GoodFor, Known, K.Compile, E.RunChained, GoodAt, C.After, InterpreterTraps, I.ContextOf,
      I.Fault, Widened;
    SyncPc(pt, text, x, i);
    match E.Lookup(x, x.s.hart.pc)
    case Some(b) =>
      FoundIsGood(pt, text, x, i, b);
      ChainInSync(pt, text, x, i, b, chain, evicted, ran);
    case None =>
      if chain > 0 {
        NothingRun(pt, text, x, i);
      } else {
        CompiledInSync(pt, text, x, i, evicted);
        match K.Compile(x.s, x.s.hart.pc, x.generation)
        case CompileTrap(u, t) =>
        case Compiled(u, b) =>
          var y := x.(s := u, blocks := E.Inserted(x.blocks, b, evicted));
          ChainInSync(pt, text, y, i, b, 0, evicted, ran);
      }
  }

  lemma SyncPc(pt: Tables, text: iset<Line>, x: E.Engine, i: I.State)
    requires InSync(pt, text, x, i)
    ensures x.s.hart == i.hart
  {
    hide Agree, F.Fit, CacheGood, DecodeGood;
  }

  lemma FoundIsGood(pt: Tables, text: iset<Line>, x: E.Engine, i: I.State, b: K.Block)
    requires InSync(pt, text, x, i) && E.Lookup(x, i.hart.pc) == Some(b)
    ensures BlockGood(text, i.hart.pc, b)
  {
    hide W.Twin, BlockGood, DecodeGood;
  }

  lemma NothingRun(pt: Tables, text: iset<Line>, x: E.Engine, i: I.State)
    requires InSync(pt, text, x, i)
    ensures InSync(pt, Known(text, i, 0), x, C.After(i, 0)) && InterpreterTraps(i, 0) == []
  {
    hide InSync, I.StepSingle, Window;
  }

  lemma CacheKeeps(text: iset<Line>, x: E.Engine, u: I.State)
    requires CacheGood(text, x)
    ensures CacheGood(text, x.(s := u))
  {
    hide BlockGood;
  }

  /** The cache stays right when a block of the text is inserted, whatever is evicted. */
  lemma InsertedGood(text: iset<Line>, x: E.Engine, u: I.State, b: K.Block, evicted: set<u64>)
    requires CacheGood(text, x) && BlockGood(text, b.startPc, b)
    ensures CacheGood(text, x.(s := u, blocks := E.Inserted(x.blocks, b, evicted)))
  {
    hide BlockGood;
    var y := x.(s := u, blocks := E.Inserted(x.blocks, b, evicted));
    forall pc | pc in y.blocks && y.blocks[pc].generation == y.generation
      ensures BlockGood(text, pc, y.blocks[pc])
    {
      if pc != b.startPc {
        assert pc in x.blocks && x.blocks[pc] == y.blocks[pc];
      }
    }
  }

  /** Compiling on one side of a pair yields what the other side's tables and memory say. */
  lemma CompilesAsPlanned(pt: Tables, u: I.State, i: I.State, generation: nat)
    requires Pair(pt, u, i) && F.Tabled(pt, i) && C.ReadsIn(Outside(pt), i.mem, I.ContextOf(i.hart), i.hart.pc)
    ensures F.Sane(pt, i) && F.Sane(pt, u) && u.hart == i.hart
    ensures var r := K.Compile(u, i.hart.pc, generation);
            && C.SamePlan(r, C.PlanFor(i.mem, I.ContextOf(i.hart), i.hart.pc, generation)) && F.OnlyMarked(pt, u, r.s)
  {
    NothingKept(pt);
    hide C.ReadsIn, P.Resolve, F.Fit, F.Tabled, F.Disjoint, C.PlanFor, K.Compile, Agree, F.OnlyMarked, I.ContextOf;
    W.TwinTabled(pt, iset{}, i.mem, u, i);
    AgreeSymmetric(pt, Outside(pt), u.mem, i.mem);
    B.KeptPlan(pt, Outside(pt), I.ContextOf(i.hart), i, u, i.hart.pc, generation);
    B.CompilePlans(pt, Outside(pt), u, generation);
  }

  ghost predicate CompiledGood(pt: Tables, text: iset<Line>, x: E.Engine, i: I.State, evicted: set<u64>,
                               r: K.Compiled) {
    match r
    case Compiled(u, b) =>
      && BlockGood(text, i.hart.pc, b)
      && InSync(pt, text, x.(s := u, blocks := E.Inserted(x.blocks, b, evicted)), i)
    case CompileTrap(u, t) =>
      && InSync(pt, Known(text, i, 1), x.(s := I.Fault(u, t).next), C.After(i, 1))
      && InterpreterTraps(i, 1) == [t]
  }

  /** Compiling keeps the engine in sync, whatever is evicted, and reports the interpreter's own trap. */
  lemma CompiledInSync(pt: Tables, text: iset<Line>, x: E.Engine, i: I.State, evicted: set<u64>)
    requires InSync(pt, text, x, i) && GoodAt(pt, text, i) && Widened(text, i)
    ensures CompiledGood(pt, text, x, i, evicted, K.Compile(x.s, i.hart.pc, x.generation))
  {
    hide W.Twin, C.QuietAt, C.RefusedAt, C.ReadsIn, P.Resolve, F.Tabled, F.Disjoint, C.PlanFor, CacheGood, DecodeGood,
      K.Compile, I.Fault, I.StepSingle, InterpreterTraps, F.Sane, F.OnlyMarked, I.ContextOf, E.Inserted, Holds, Known,
          Window, C.After, F.PlainFetch;
    CompilesAsPlanned(pt, x.s, i, x.generation);
    var r := K.Compile(x.s, i.hart.pc, x.generation);
    match r
    case Compiled(u, b) =>
      PlannedBlockGood(text, i, b, x.generation);
      InsertedGood(text, x, u, b, evicted);
      MarkedItself(pt, i);
      MarkedPair(pt, x.s, i, u, i);
      C.MarkedHart(pt, x.s, u);
    case CompileTrap(u, t) =>
      CompileTrapInSync(pt, x.s, i, x.generation, u, t);
      TrapKeepsRegs(u, t);
      C.MarkedHart(pt, x.s, u);
      KnownGrows(text, i, 1);
      CacheMore(text, Known(text, i, 1), x);
      CacheKeeps(Known(text, i, 1), x, I.Fault(u, t).next);
  }

  lemma PlannedBlockGood(text: iset<Line>, i: I.State, b: K.Block, generation: nat)
    requires C.PlanFor(i.mem, I.ContextOf(i.hart), i.hart.pc, generation) == C.Planned(b) && Widened(text, i)
    ensures BlockGood(text, i.hart.pc, b)
  {
    hide C.PlanFor, Window, Holds, I.ContextOf, P.Resolve, C.Follows, B.Chained;
    B.Layout(i.mem, I.ContextOf(i.hart), i.hart.pc, generation);
    WindowHolds(i, generation);
    HoldsMore(Window(i), text, b, 0, 0);
  }

  lemma CompileTrapInSync(pt: Tables, e: I.State, i: I.State, generation: nat, u: I.State, t: Trap)
    requires Pair(pt, e, i) && F.Tabled(pt, i) && F.Sane(pt, i) && F.OnlyMarked(pt, e, u)
    requires C.ReadsIn(Outside(pt), i.mem, I.ContextOf(i.hart), i.hart.pc)
    requires i.hart.pc % 2 == 0 || P.Resolve(i.mem, I.ContextOf(i.hart), i.hart.pc, M.Instruction).Ok?
    requires C.PlanFor(i.mem, I.ContextOf(i.hart), i.hart.pc, generation) == C.PlanTrap(t)
    ensures Pair(pt, I.Fault(u, t).next, C.After(i, 1)) && InterpreterTraps(i, 1) == [t]
  {
    NothingKept(pt);
    hide W.Twin, C.ReadsIn, P.Resolve, F.Tabled, F.Sane, F.Disjoint, C.PlanFor, I.Fault, I.StepSingle, InterpreterTraps,
      F.OnlyMarked, I.ContextOf, C.After;
    B.PlanTrapIsFirst(pt, Outside(pt), i, generation);
    B.StepsStart(i);
    var v, t' :| F.OnlyMarked(pt, i, v) && I.StepSingle(i) == I.Fault(v, t');
    B.FaultReports(v, t');
    W.MarkedTwins(pt, iset{}, i.mem, e, i, u, v);
    W.TwinFault(pt, iset{}, i.mem, u, v, t);
    PairOf(pt, i.mem, I.Fault(u, t).next, I.Fault(v, t).next);
    OneTrap(i, t);
  }

  lemma MarkedPair(pt: Tables, e: I.State, i: I.State, u: I.State, v: I.State)
    requires Pair(pt, e, i) && F.OnlyMarked(pt, e, u) && F.OnlyMarked(pt, i, v)
    ensures Pair(pt, u, v)
  {
    NothingKept(pt);
    hide W.Twin, F.OnlyMarked, F.Disjoint;
    W.MarkedTwins(pt, iset{}, i.mem, e, i, u, v);
    PairOf(pt, i.mem, u, v);
  }

  lemma MarkedItself(pt: Tables, i: I.State)
    requires F.Sane(pt, i)
    ensures F.OnlyMarked(pt, i, i)
  {
    AgreeRefl(pt, Outside(pt), i.mem);
    hide Agree, F.Fit, F.Tabled;
  }

  lemma OneTrap(i: I.State, t: Trap)
    requires I.StepSingle(i).err == Some(t)
    ensures InterpreterTraps(i, 1) == [t]
  {
    hide I.StepSingle;
    assert InterpreterTraps(i, 1) == E.Reported(I.StepSingle(i).err) + InterpreterTraps(I.StepSingle(i).next, 0);
  }

  // ---- Steps and runs -----------------------------------------------------------------------------------------------

  lemma WindowKnown(text: iset<Line>, i: I.State, k: nat)
    ensures Known(text + Window(i), i, k + 1) == Known(text, i, k + 1)
  {
    hide I.StepSingle, Window;
    assert text + Window(i) + Window(i) == text + Window(i);
  }

  /** The window of the first state makes no difference once it has been executed from. */
  lemma WindowAbsorbed(pt: Tables, text: iset<Line>, i: I.State, n: nat)
    requires GoodFor(pt, text, i, n)
    ensures GoodFor(pt, text + Window(i), i, n)
  {
    hide I.StepSingle, Window, GoodAt, C.After, Known;
    forall k | 0 <= k < n
      ensures GoodAt(pt, Known(text + Window(i), i, k + 1), C.After(i, k))
    {
      WindowKnown(text, i, k);
      assert GoodAt(pt, Known(text, i, k + 1), C.After(i, k));
    }
  }

  /** One block-enabled step, in sync before, is in sync after as many interpreted instructions, and has
      reported what those report; it makes the host's choices invisible. */
  lemma StepSimulates(pt: Tables, text: iset<Line>, x: E.Engine, i: I.State, choice: E.Choice)
    requires InSync(pt, text, x, i) && SizedBlocks(x)
    requires GoodFor(pt, text, i, E.Step(x, choice).ran)
    ensures var r := E.Step(x, choice);
            && InSync(pt, Known(text, i, r.ran), r.x, C.After(i, r.ran)) && r.x.generation == x.generation
            && E.Reported(r.err) == InterpreterTraps(i, r.ran)
  {
    hide InSync, GoodAt, GoodFor, Known, C.After, InterpreterTraps, E.TryBlock, E.StepSingle, E.Step, E.Reported,
      SizedBlocks;
    BoundedWork(x, choice);
    StepCases(x, choice);
    StepInSync(pt, text, x, i, choice, E.Step(x, choice));
  }

  /** `r` is the step. */
  ghost predicate StepIs(x: E.Engine, choice: E.Choice, r: E.Stepped) {
    && (!choice.useBlocks ==> r == E.StepSingle(x) && r.ran == 1)
    && (choice.useBlocks ==>
          var o := E.TryBlock(x, 0, choice.evicted, 0);
          && (o.Finished? ==> r == E.Stepped(o.x, o.err, o.ran))
          && (o.Fallback? ==> r == E.StepSingle(o.x).(ran := o.ran + 1)))
  }

  lemma StepInSync(pt: Tables, text: iset<Line>, x: E.Engine, i: I.State, choice: E.Choice, r: E.Stepped)
    requires InSync(pt, text, x, i) && r.ran > 0 && GoodFor(pt, text, i, r.ran) && StepIs(x, choice, r)
    ensures InSync(pt, Known(text, i, r.ran), r.x, C.After(i, r.ran)) && r.x.generation == x.generation
    ensures E.Reported(r.err) == InterpreterTraps(i, r.ran)
  {
    hide InSync, GoodAt, GoodFor, Known, Window, C.After, InterpreterTraps, StepIs, E.Reported;
    var wide := text + Window(i);
    WindowAbsorbed(pt, text, i, r.ran);
    WindowKnown(text, i, r.ran - 1);
    SyncMore(pt, text, wide, x, i);
    WideInSync(pt, wide, x, i, choice, r);
  }

  lemma WideInSync(pt: Tables, text: iset<Line>, x: E.Engine, i: I.State, choice: E.Choice, r: E.Stepped)
    requires InSync(pt, text, x, i) && r.ran > 0 && GoodFor(pt, text, i, r.ran) && StepIs(x, choice, r)
             && Widened(text, i)
    ensures InSync(pt, Known(text, i, r.ran), r.x, C.After(i, r.ran)) && r.x.generation == x.generation
    ensures E.Reported(r.err) == InterpreterTraps(i, r.ran)
  {
    hide InSync, GoodAt, GoodFor, Known, Widened, C.After, InterpreterTraps, E.TryBlock, E.StepSingle, E.Reported;
    if choice.useBlocks {
      GoodFirst(pt, text, i, r.ran);
      BlocksInSync(pt, text, x, i, choice.evicted);
    } else {
      FallbackInSync(pt, text, x, i);
    }
  }

  /** Instructions covered by a step with blocks enabled. */
  function StepLength(o: E.Outcome): nat {
    if o.Finished? then o.ran else o.ran + 1
  }

  /** The blocks of a step, and the instruction they may hand back. */
  lemma BlocksInSync(pt: Tables, text: iset<Line>, x: E.Engine, i: I.State, evicted: set<u64>)
    requires InSync(pt, text, x, i) && Widened(text, i) && GoodAt(pt, text, i)
    requires GoodFor(pt, text, i, StepLength(E.TryBlock(x, 0, evicted, 0)))
    ensures var o := E.TryBlock(x, 0, evicted, 0);
            && Reaches(pt, text, x, o, i, o.ran)
            && (o.Fallback? ==>
                  var r, n := E.StepSingle(o.x), o.ran + 1;
                  && InSync(pt, Known(text, i, n), r.x, C.After(i, n)) && r.x.generation == x.generation
                  && E.Reported(r.err) == InterpreterTraps(i, n))
  {
    hide InSync, GoodAt, GoodFor, Known, Widened, C.After, InterpreterTraps, E.TryBlock, E.StepSingle, I.ContextOf,
      Reaches;
    var o := E.TryBlock(x, 0, evicted, 0);
    if o.Fallback? {
      GoodSuffix(pt, text, i, o.ran, 1);
    }
    TryInSync(pt, text, x, i, 0, evicted, 0);
    if o.Fallback? {
      HandedBackInSync(pt, text, x, o, i);
    }
  }

  lemma StepCases(x: E.Engine, choice: E.Choice)
    ensures !choice.useBlocks ==> E.Step(x, choice) == E.StepSingle(x) && E.StepSingle(x).ran == 1
    ensures choice.useBlocks ==>
              var o, r := E.TryBlock(x, 0, choice.evicted, 0), E.Step(x, choice);
              && (o.Finished? ==> r == E.Stepped(o.x, o.err, o.ran))
              && (o.Fallback? ==> r == E.StepSingle(o.x).(ran := o.ran + 1))
  {
    hide E.TryBlock, E.StepSingle;
    SingleRan(x);
    SingleRan(E.TryBlock(x, 0, choice.evicted, 0).x);
  }

  /** The instruction a chain handed back, after those before it. */
  lemma HandedBackInSync(pt: Tables, text: iset<Line>, x: E.Engine, o: E.Outcome, i: I.State)
    requires o.Fallback? && Reaches(pt, text, x, o, i, o.ran)
             && GoodFor(pt, Known(text, i, o.ran), C.After(i, o.ran), 1)
    ensures var r, n := E.StepSingle(o.x), o.ran + 1;
            && InSync(pt, Known(text, i, n), r.x, C.After(i, n)) && r.x.generation == x.generation && r.ran == 1
            && E.Reported(r.err) == InterpreterTraps(i, n)
  {
    hide InSync, GoodAt, GoodFor, Known, Window, C.After, InterpreterTraps, E.StepSingle;
    FallbackInSync(pt, Known(text, i, o.ran), o.x, C.After(i, o.ran));
    KnownSum(text, i, o.ran, 1);
    AfterSum(i, o.ran, 1);
    TrapsSum(i, o.ran, 1);
  }

  /** The instruction a block handed back. */
  lemma FallbackInSync(pt: Tables, text: iset<Line>, x: E.Engine, i: I.State)
    requires InSync(pt, text, x, i) && GoodFor(pt, text, i, 1)
    ensures var r := E.StepSingle(x);
            && InSync(pt, Known(text, i, 1), r.x, C.After(i, 1)) && r.x.generation == x.generation && r.ran == 1
            && E.Reported(r.err) == InterpreterTraps(i, 1)
  {
    hide InSync, GoodAt, GoodFor, Known, Window, C.After, InterpreterTraps, E.StepSingle;
    GoodFirst(pt, text, i, 1);
    SingleInSync(pt, text, x, i);
    KnownGrows(text, i, 1);
    SyncMore(pt, text, Known(text, i, 1), E.StepSingle(x).x, C.After(i, 1));
  }

  lemma SingleRan(x: E.Engine)
    ensures E.StepSingle(x).ran == 1
  {
    hide I.FetchAndExpand, I.Execute, D.Decode, E.FlushesDecode;
  }

  /** Run-level simulation.  Any number of block-enabled steps, with whatever eviction and with blocks
      turned on and off at will, through whatever modes and address spaces, lead where the interpreter gets
      to, with the same traps in the same order, as long as the interpreter's run is good: above all, it
      executes no instruction that has changed since compiling may have read it. */
  lemma {:induction false} RunSimulates(pt: Tables, text: iset<Line>, x: E.Engine, i: I.State, choices: seq<E.Choice>)
    requires InSync(pt, text, x, i) && SizedBlocks(x)
    requires GoodFor(pt, text, i, E.Run(x, choices).ran)
    ensures var r := E.Run(x, choices);
            && InSync(pt, Known(text, i, r.ran), r.x, C.After(i, r.ran))
            && r.traps == InterpreterTraps(i, r.ran)
            && |choices| <= r.ran <= MAX_STEP * |choices|
            && SizedBlocks(r.x) && r.x.generation == x.generation
    decreases |choices|
  {
    hide InSync, GoodAt, GoodFor, Known, C.After, InterpreterTraps, E.Step, I.StepSingle, SizedBlocks;
    if choices == [] {
      NothingRun(pt, text, x, i);
    } else {
      var r := E.Step(x, choices[0]);
      var rest := E.Run(r.x, choices[1..]);
      BoundedWork(x, choices[0]);
      GoodSuffix(pt, text, i, r.ran, rest.ran);
      StepSimulates(pt, text, x, i, choices[0]);
      RunSimulates(pt, Known(text, i, r.ran), r.x, C.After(i, r.ran), choices[1..]);
      AfterSum(i, r.ran, rest.ran);
      TrapsSum(i, r.ran, rest.ran);
      KnownSum(text, i, r.ran, rest.ran);
    }
  }

  // ---- From cold caches ---------------------------------------------------------------------------------------------

  function Cold(s: I.State): E.Engine {
    E.Engine(s, map[], 0, map[])
  }

  lemma ColdInSync(pt: Tables, s: I.State)
    requires F.Fit(pt, s) && s.hart.regs[0] == 0
    ensures InSync(pt, iset{}, Cold(s), s) && SizedBlocks(Cold(s))
  {
    AgreeRefl(pt, Outside(pt), s.mem);
    AgreeRefl(pt, iset{}, s.mem);
    hide F.Fit, Agree;
  }

  /** From cold caches, any number of steps ends in the interpreter's hart and, but for accessed/dirty
      marks in page tables, in the interpreter's memory. */
  lemma ColdRun(pt: Tables, s: I.State, choices: seq<E.Choice>)
    requires F.Fit(pt, s) && s.hart.regs[0] == 0
    requires GoodFor(pt, iset{}, s, E.Run(Cold(s), choices).ran)
    ensures var r := E.Run(Cold(s), choices);
            && r.x.s.hart == C.After(s, r.ran).hart
            && Agree(pt, Outside(pt), r.x.s.mem, C.After(s, r.ran).mem)
            && r.traps == InterpreterTraps(s, r.ran)
  {
    hide F.Fit, GoodFor, SizedBlocks, C.After, InterpreterTraps, E.Run, Agree, CacheGood, DecodeGood, Known;
    ColdInSync(pt, s);
    RunSimulates(pt, iset{}, Cold(s), s, choices);
  }

  /** Without page tables the two sides end in the same machine. */
  lemma BareRun(s: I.State, choices: seq<E.Choice>)
    requires F.SpaceOf(I.ContextOf(s.hart)) == F.Identity && s.hart.regs[0] == 0
    requires GoodFor(NO_TABLES, iset{}, s, E.Run(Cold(s), choices).ran)
    ensures var r := E.Run(Cold(s), choices);
            B.SameMachine(r.x.s, C.After(s, r.ran)) && r.traps == InterpreterTraps(s, r.ran)
  {
    hide GoodFor, C.After, InterpreterTraps, E.Run, I.ContextOf, Unpack;
    F.SaneWithoutTables(s);
    ColdRun(NO_TABLES, s, choices);
    var r := E.Run(Cold(s), choices);
    forall w
      ensures r.x.s.mem.At(w) == C.After(s, r.ran).mem.At(w)
    {
      assert w in Outside(NO_TABLES);
    }
  }

  // ---- Bounded work -------------------------------------------------------------------------------------------------

  const MAX_STEP: nat := 16 * 64 + 1

  /** Every cached block holds between 1 and 64 operations. */
  ghost predicate SizedBlocks(x: E.Engine) {
    forall pc :: pc in x.blocks ==> 0 < |x.blocks[pc].ops| <= K.MAX_BLOCK_SIZE
  }

  lemma {:induction false} CompiledSize(s: I.State, b: K.Block, pc: u64, off: nat)
    requires |b.ops| <= K.MAX_BLOCK_SIZE
    ensures var r := K.CompileFrom(s, b, pc, off); r.Compiled? ==> 0 < |r.block.ops| <= K.MAX_BLOCK_SIZE
    decreases K.MAX_BLOCK_SIZE - |b.ops|
  {
    hide K.FetchInsn, K.Advance, D.Decode;
    var f := K.FetchInsn(s, pc);
    if f.Fetched? {
      C.AdvanceKeeps(b, f.insn, f.len, pc, off);
      var v := K.Advance(b, f.insn, f.len, pc, off);
      if v.More? {
        CompiledSize(f.s, v.block, v.pc, off + f.len);
      }
    }
  }

  lemma {:induction false} ChainBounded(x: E.Engine, b: K.Block, chain: nat, evicted: set<u64>, ran: nat)
    requires chain < E.MAX_CHAIN_DEPTH && SizedBlocks(x) && 0 < |b.ops| <= K.MAX_BLOCK_SIZE
    ensures var o := E.RunChained(x, b, chain, evicted, ran);
            && o.ran <= ran + K.MAX_BLOCK_SIZE * (E.MAX_CHAIN_DEPTH - chain)
            && (o.Finished? ==> o.ran > ran) && SizedBlocks(o.x)
    decreases E.MAX_CHAIN_DEPTH - chain, 0
  {
    hide K.MicroStep, T.HandleTrap, E.TryBlock;
    var out := K.RunBlock(b, x.s);
    RunCounts(b, 0, x.s);
    if out.Continue? && chain + 1 < E.MAX_CHAIN_DEPTH && b.next == Some(out.pc) {
      TryBounded(x.(s := C.WithPc(out.s, out.pc)), chain + 1, evicted, ran + K.Steps(b, 0, x.s));
    }
    hide K.RunOps, K.Steps;
  }

  lemma {:induction false} TryBounded(x: E.Engine, chain: nat, evicted: set<u64>, ran: nat)
    requires chain < E.MAX_CHAIN_DEPTH && SizedBlocks(x)
    ensures var o := E.TryBlock(x, chain, evicted, ran);
            && o.ran <= ran + K.MAX_BLOCK_SIZE * (E.MAX_CHAIN_DEPTH - chain)
            && (o.Finished? && chain == 0 ==> o.ran > ran) && SizedBlocks(o.x)
    decreases E.MAX_CHAIN_DEPTH - chain, 1
  {
    hide E.RunChained, K.CompileFrom, I.Translate, I.Fault;
    match E.Lookup(x, x.s.hart.pc)
    case Some(b) => ChainBounded(x, b, chain, evicted, ran);
    case None =>
      if chain == 0 {
        var t := I.Translate(x.s, x.s.hart.pc, M.Instruction);
        if t.res.Ok? {
          CompiledSize(t.s, K.Block(x.s.hart.pc, t.res.value, [], 0, None, x.generation), x.s.hart.pc, 0);
        }
        match K.Compile(x.s, x.s.hart.pc, x.generation)
        case CompileTrap(_, _) =>
        case Compiled(u, b) => ChainBounded(x.(s := u, blocks := E.Inserted(x.blocks, b, evicted)), b, 0, evicted, ran);
      }
  }

  /** A non-empty block executes an instruction unless it hands it back. */
  lemma {:induction false} RunCounts(b: K.Block, idx: nat, s: I.State)
    requires idx < |b.ops|
    ensures K.Steps(b, idx, s) > 0 || K.RunOps(b, idx, s).Exit?
  {
    hide K.MicroStep;
  }

  /** A step executes at least one instruction, and at most 16 blocks of 64 and one more; it terminates
      whatever the caches hold. */
  lemma BoundedWork(x: E.Engine, choice: E.Choice)
    requires SizedBlocks(x)
    ensures 1 <= E.Step(x, choice).ran <= MAX_STEP && SizedBlocks(E.Step(x, choice).x)
  {
    hide E.TryBlock, E.StepSingle;
    TryBounded(x, 0, choice.evicted, 0);
    SingleRan(x);
    SingleKeepsBlocks(x);
    var o := E.TryBlock(x, 0, choice.evicted, 0);
    SingleRan(o.x);
    SingleKeepsBlocks(o.x);
  }

  lemma SingleKeepsBlocks(x: E.Engine)
    ensures E.StepSingle(x).x.blocks == x.blocks && E.StepSingle(x).x.generation == x.generation
  {
    hide I.FetchAndExpand, I.Execute, D.Decode, E.FlushesDecode;
  }
}
