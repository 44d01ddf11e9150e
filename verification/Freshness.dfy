/** When cached blocks are what compiling would produce, and conditions on a run under which none is stale. */
module Freshness {
  import opened Base
  import opened Memory
  import M = Mmu
  import P = MmuProofs
  import D = Decoder
  import opened HartState
  import Micro
  import T = Traps
  import I = Interpreter
  import K = Block
  import A = MicroAgreement
  import F = FetchProofs
  import W = Twins
  import C = BlockCorrect
  import B = BlockTheorems
  import opened ProgramText
  import E = Engine
  import opened EngineProofs

  // ---- Pages that keep their address space ------------------------------------------------------------------

  /** The instruction about to be interpreted is quiet, not a refused store, and does not overwrite code;
      its page belongs to the present address space; compiling here would fetch code words only. */
  ghost predicate KeptAt(pt: Tables, code: iset<int>, home: int -> F.Space, s: I.State) {
    var c := I.ContextOf(s.hart);
    && C.QuietAt(pt, code, s) && !C.RefusedAt(s)
    && F.Tabled(pt, s) && F.SpaceOf(c) == home(s.hart.pc / 4096)
    && C.ReadsIn(code, s.mem, c, s.hart.pc)
    && (s.hart.pc % 2 == 0 || P.Resolve(s.mem, c, s.hart.pc, M.Instruction).Ok?)
  }

  ghost predicate KeptFor(pt: Tables, code: iset<int>, home: int -> F.Space, s: I.State, n: nat) {
    forall k :: 0 <= k < n ==> KeptAt(pt, code, home, C.After(s, k))
  }

  lemma {:induction false} KnownFrom(text: iset<Line>, s: I.State, n: nat, l: Line)
    requires l in Known(text, s, n)
    ensures l in text || exists j :: 0 <= j < n && l in Window(C.After(s, j))
    decreases n
  {
    hide I.StepSingle, Window;
    if n > 0 {
      var t := I.StepSingle(s).next;
      KnownFrom(text + Window(s), t, n - 1, l);
      if l in Window(s) {
        AfterNone(s);
        assert 0 <= 0 < n && l in Window(C.After(s, 0));
      } else if l !in text {
        var j :| 0 <= j < n - 1 && l in Window(C.After(t, j));
        assert C.After(s, j + 1) == C.After(t, j);
        assert 0 <= j + 1 < n && l in Window(C.After(s, j + 1));
      }
    }
  }

  /** Addresses a block covers lie in its page, and what is read there in code words. */
  lemma {:induction false} CoversInPage(code: iset<int>, m: Mem, c: M.Context, b: K.Block, idx: nat, off: nat, va: u64)
    requires idx <= |b.ops| && C.Follows(m, c, b, idx, off) && C.OpsIn(code, m, c, b, idx, off)
    requires Covers(m, c, b.startPc, |b.ops| - idx, off, va)
    ensures va / 4096 == b.startPc / 4096 && F.FetchIn(code, m, c, va)
    decreases |b.ops| - idx
  {
    hide F.PlainFetch, F.FetchIn, D.Decode, Micro.Transcode, ToU64;
    var pc := ToU64(b.startPc + off);
    if va != pc {
      CoversInPage(code, m, c, b, idx + 1, off + F.PlainFetch(m, c, pc).len, va);
    }
  }

  lemma WindowInPage(code: iset<int>, s: I.State, l: Line)
    requires l in Window(s) && C.ReadsIn(code, s.mem, I.ContextOf(s.hart), s.hart.pc)
    ensures l.va / 4096 == s.hart.pc / 4096 && F.FetchIn(code, s.mem, I.ContextOf(s.hart), l.va)
    ensures l.insn == F.PlainFetch(s.mem, I.ContextOf(s.hart), l.va)
  {
    hide C.PlanFor, C.ReadsIn, C.Follows, C.OpsIn, F.PlainFetch, F.FetchIn, Covers, I.ContextOf, P.Resolve, B.Chained;
    var c, pc := I.ContextOf(s.hart), s.hart.pc;
    B.Layout(s.mem, c, pc, 0);
    B.PlanForReads(code, s.mem, c, pc, 0);
    CoversInPage(code, s.mem, c, C.PlanFor(s.mem, c, pc, 0).block, 0, 0, l.va);
  }

  /** What a kept run leaves alone. */
  lemma {:induction false} KeptSelf(pt: Tables, code: iset<int>, home: int -> F.Space, s: I.State, k: nat)
    requires F.Disjoint(pt, code) && F.Fit(pt, s) && KeptFor(pt, code, home, s, k)
    ensures W.Twin(pt, code, s.mem, C.After(s, k), C.After(s, k))
    decreases k
  {
    hide F.Fit, F.Disjoint, KeptAt, C.After, I.StepSingle, W.Twin;
    if k == 0 {
      SelfTwin(pt, code, s);
      AfterNone(s);
    } else {
      KeptSelf(pt, code, home, s, k - 1);
      var i := C.After(s, k - 1);
      assert KeptAt(pt, code, home, i);
      KeptStep(pt, code, home, s.mem, i);
      AfterSum(s, k - 1, 1);
      B.StepsStart(i);
    }
  }

  lemma AfterNone(s: I.State)
    ensures C.After(s, 0) == s
  {
  }

  lemma SelfTwin(pt: Tables, code: iset<int>, s: I.State)
    requires F.Fit(pt, s)
    ensures W.Twin(pt, code, s.mem, s, s)
  {
    AgreeRefl(pt, Outside(pt), s.mem);
    AgreeRefl(pt, code, s.mem);
    hide Agree, F.Fit;
  }

  lemma KeptStep(pt: Tables, code: iset<int>, home: int -> F.Space, m0: Mem, i: I.State)
    requires F.Disjoint(pt, code) && W.Twin(pt, code, m0, i, i) && KeptAt(pt, code, home, i)
    ensures W.Twin(pt, code, m0, I.StepSingle(i).next, I.StepSingle(i).next)
  {
    hide F.Disjoint, W.Twin, C.QuietAt, C.RefusedAt, F.Tabled, F.SpaceOf, C.ReadsIn, P.Resolve, F.FetchIn, I.StepSingle,
      I.ContextOf;
    C.ReadsFirst(code, i.mem, I.ContextOf(i.hart), i.hart.pc);
    C.CodeFetch(pt, code, i.mem, I.ContextOf(i.hart), i.hart.pc);
    TwinStep(pt, code, m0, i, i);
  }

  /** Instructions of one address space read from code words stay what they are. */
  lemma SameLine(pt: Tables, code: iset<int>, m0: Mem, s: I.State, t: I.State, va: u64)
    requires F.Disjoint(pt, code) && W.Twin(pt, code, m0, s, s) && W.Twin(pt, code, m0, t, t) && F.Tabled(pt, s)
    requires F.SpaceOf(I.ContextOf(s.hart)) == F.SpaceOf(I.ContextOf(t.hart))
    requires F.FetchIn(code, s.mem, I.ContextOf(s.hart), va)
    ensures F.PlainFetch(t.mem, I.ContextOf(t.hart), va) == F.PlainFetch(s.mem, I.ContextOf(s.hart), va)
  {
    hide F.SpaceOf, F.FetchIn, F.PlainFetch, Agree, F.Fit, F.Tabled, F.Disjoint;
    AgreeSymmetric(pt, code, m0, s.mem);
    AgreeTransitive(pt, code, s.mem, m0, t.mem);
    C.SameFetch(pt, code, I.ContextOf(s.hart), s, t, va);
  }

  lemma QuietAnyway(pt: Tables, code: iset<int>, s: I.State)
    requires C.QuietAt(pt, code, s)
    ensures C.QuietAt(pt, iset{}, s)
  {
    hide F.PlainFetch, D.Decode, A.Legal, P.Resolve;
  }

  lemma {:induction false} ReadsMore(code: iset<int>, more: iset<int>, m: Mem, c: M.Context, b: K.Block, pc: u64,
                                     off: nat)
    requires |b.ops| <= K.MAX_BLOCK_SIZE && C.ReadsFrom(code, m, c, b, pc, off) && code <= more
    ensures C.ReadsFrom(more, m, c, b, pc, off)
    decreases K.MAX_BLOCK_SIZE - |b.ops|
  {
    hide F.FetchIn, F.PlainFetch, C.PlanMove;
    F.FetchInMore(code, more, m, c, pc);
    var v := C.PlanMove(m, c, b, pc, off);
    if v.More? {
      ReadsMore(code, more, m, c, v.block, v.pc, off + F.PlainFetch(m, c, pc).len);
    }
  }

  lemma ReadsOutside(pt: Tables, code: iset<int>, m: Mem, c: M.Context, pc: u64)
    requires F.Disjoint(pt, code) && C.ReadsIn(code, m, c, pc)
    ensures C.ReadsIn(Outside(pt), m, c, pc)
  {
    hide C.ReadsFrom;
    W.CodeOutside(pt, code);
    forall pa: u64, generation: nat
      ensures C.ReadsFrom(Outside(pt), m, c, K.Block(pc, pa, [], 0, None, generation), pc, 0)
    {
      ReadsMore(code, Outside(pt), m, c, K.Block(pc, pa, [], 0, None, generation), pc, 0);
    }
  }

  /** One known line against the instruction about to be executed. */
  lemma LineStays(pt: Tables, code: iset<int>, home: int -> F.Space, s: I.State, j: nat, k: nat, l: Line)
    requires F.Disjoint(pt, code) && F.Fit(pt, s) && j <= k && KeptFor(pt, code, home, s, k + 1)
    requires l in Window(C.After(s, j)) && l.va == C.After(s, k).hart.pc
    ensures F.PlainFetch(C.After(s, k).mem, I.ContextOf(C.After(s, k).hart), l.va) == l.insn
  {
    hide F.Disjoint, F.Fit, W.Twin, C.QuietAt, C.RefusedAt, F.Tabled, F.SpaceOf, C.ReadsIn, P.Resolve, F.FetchIn,
      F.PlainFetch, Window, C.After, I.ContextOf;
    KeptSelf(pt, code, home, s, j);
    KeptSelf(pt, code, home, s, k);
    var u, v := C.After(s, j), C.After(s, k);
    assert KeptAt(pt, code, home, u) && KeptAt(pt, code, home, v);
    WindowInPage(code, u, l);
    SameLine(pt, code, s.mem, u, v, l.va);
  }

  /** A run is good if every page is executed in one address space only and code words are not written:
      user code, kernel and firmware may take turns through traps and returns. */
  lemma HomesAreGood(pt: Tables, code: iset<int>, home: int -> F.Space, s: I.State, n: nat)
    requires F.Disjoint(pt, code) && F.Fit(pt, s) && KeptFor(pt, code, home, s, n)
    ensures GoodFor(pt, iset{}, s, n)
  {
    hide F.Disjoint, F.Fit, C.QuietAt, C.RefusedAt, F.Tabled, F.SpaceOf, C.ReadsIn, P.Resolve, F.PlainFetch,
      Window, Known, C.After, I.ContextOf;
    forall k | 0 <= k < n
      ensures GoodAt(pt, Known(iset{}, s, k + 1), C.After(s, k))
    {
      var v := C.After(s, k);
      assert KeptAt(pt, code, home, v);
      QuietAnyway(pt, code, v);
      ReadsOutside(pt, code, v.mem, I.ContextOf(v.hart), v.hart.pc);
      forall f | Line(v.hart.pc, f) in Known(iset{}, s, k + 1)
        ensures F.PlainFetch(v.mem, I.ContextOf(v.hart), v.hart.pc) == f
      {
        var l := Line(v.hart.pc, f);
        KnownFrom(iset{}, s, k + 1, l);
        var j :| 0 <= j < k + 1 && l in Window(C.After(s, j));
        LineStays(pt, code, home, s, j, k, l);
      }
    }
  }

  // ---- Blocks that are what compiling would produce ----------------------------------------------------------

  /** A block found in the cache is the one compiling now would run if and only if the current tables and
      code bytes at pc plan it. */
  lemma HitIsFresh(pt: Tables, x: E.Engine, b: K.Block)
    requires E.Lookup(x, x.s.hart.pc) == Some(b) && F.Sane(pt, x.s)
    requires C.ReadsIn(Outside(pt), x.s.mem, I.ContextOf(x.s.hart), x.s.hart.pc)
    ensures (exists u :: K.Compile(x.s, x.s.hart.pc, x.generation) == K.Compiled(u, b))
            <==> C.PlanFor(x.s.mem, I.ContextOf(x.s.hart), x.s.hart.pc, x.generation) == C.Planned(b)
  {
    NothingKept(pt);
    hide F.Sane, C.ReadsIn, C.PlanFor, K.Compile, F.Disjoint, I.ContextOf, F.OnlyMarked;
    B.CompilePlans(pt, Outside(pt), x.s, x.generation);
    var r := K.Compile(x.s, x.s.hart.pc, x.generation);
    assert r.Compiled? ==> r == K.Compiled(r.s, r.block);
  }

  /** Every current-generation block is what the code bytes of `s0` and the address space `c` plan for its pc. */
  ghost predicate Fresh(code: iset<int>, c: M.Context, s0: I.State, x: E.Engine) {
    forall pc :: pc in x.blocks && x.blocks[pc].generation == x.generation ==> FreshAt(code, c, s0, pc, x.blocks[pc])
  }

  ghost predicate FreshAt(code: iset<int>, c: M.Context, s0: I.State, pc: u64, b: K.Block) {
    && b.startPc == pc
    && C.ReadsIn(code, s0.mem, c, pc)
    && C.PlanFor(s0.mem, c, pc, b.generation) == C.Planned(b)
  }

  /** The code bytes and the address space of the setting are those of `s`. */
  ghost predicate Same(pt: Tables, code: iset<int>, c: M.Context, s0: I.State, s: I.State) {
    Agree(pt, code, s0.mem, s.mem) && F.SpaceOf(I.ContextOf(s.hart)) == F.SpaceOf(c) && F.Fit(pt, s)
  }

  /** While code bytes and address space stay, each current-generation cached block equals what compiling
      at its pc would produce now. */
  lemma CachedIsCompiled(pt: Tables, code: iset<int>, c: M.Context, s0: I.State, x: E.Engine, pc: u64)
    requires C.Setting(pt, code, c, s0) && Fresh(code, c, s0, x) && Same(pt, code, c, s0, x.s)
    requires pc in x.blocks && x.blocks[pc].generation == x.generation
    ensures C.SamePlan(K.Compile(C.WithPc(x.s, pc), pc, x.generation), C.Planned(x.blocks[pc]))
  {
    hide F.SpaceOf, C.ReadsIn, F.Fit, F.Disjoint, C.PlanFor, K.Compile, Agree, F.Sane, F.OnlyMarked, F.Tabled;
    assert FreshAt(code, c, s0, pc, x.blocks[pc]);
    var y := C.WithPc(x.s, pc);
    SamePc(pt, code, c, s0, x.s, pc);
    SameIsSane(pt, code, c, s0, y);
    B.KeptPlan(pt, code, c, s0, y, pc, x.generation);
    B.CompilePlans(pt, code, y, x.generation);
  }

  lemma SamePc(pt: Tables, code: iset<int>, c: M.Context, s0: I.State, s: I.State, pc: u64)
    requires Same(pt, code, c, s0, s)
    ensures Same(pt, code, c, s0, C.WithPc(s, pc))
  {
    hide Agree, F.SpaceOf, P.TablesIn, P.Coherent;
  }

  lemma SameIsSane(pt: Tables, code: iset<int>, c: M.Context, s0: I.State, s: I.State)
    requires C.Setting(pt, code, c, s0) && Same(pt, code, c, s0, s)
    ensures F.Sane(pt, s)
  {
    hide Agree, F.SpaceOf, F.Fit, F.Disjoint, F.Tabled;
    C.SameTabled(pt, code, c, s0, s);
  }

  /** A step compiles at its start or not at all. */
  lemma StepCompilesOnce(x: E.Engine, choice: E.Choice)
    ensures var y, r := E.Step(x, choice).x, K.Compile(x.s, x.s.hart.pc, x.generation);
            && y.generation == x.generation
            && (y.blocks == x.blocks || (r.Compiled? && y.blocks == E.Inserted(x.blocks, r.block, choice.evicted)))
  {
    hide E.TryBlock, E.StepSingle, K.Compile, E.Inserted;
    StepCases(x, choice);
    SingleKeepsBlocks(x);
    TryCompilesOnce(x, 0, choice.evicted, 0);
    SingleKeepsBlocks(E.TryBlock(x, 0, choice.evicted, 0).x);
  }

  lemma {:induction false} TryCompilesOnce(x: E.Engine, chain: nat, evicted: set<u64>, ran: nat)
    requires chain < E.MAX_CHAIN_DEPTH
    ensures var y, r := E.TryBlock(x, chain, evicted, ran).x, K.Compile(x.s, x.s.hart.pc, x.generation);
            && y.generation == x.generation
            && (y.blocks == x.blocks || (chain == 0 && r.Compiled?
                                         && y.blocks == E.Inserted(x.blocks, r.block, evicted)))
    decreases E.MAX_CHAIN_DEPTH - chain, 1
  {
    hide E.RunChained, K.Compile, I.Fault, E.Inserted;
    match E.Lookup(x, x.s.hart.pc)
    case Some(b) => ChainKeepsBlocks(x, b, chain, evicted, ran);
    case None =>
      if chain == 0 {
        match K.Compile(x.s, x.s.hart.pc, x.generation)
        case CompileTrap(u, t) =>
        case Compiled(u, b) => ChainKeepsBlocks(x.(s := u, blocks := E.Inserted(x.blocks, b, evicted)), b, 0, evicted,
                                                ran);
      }
  }

  lemma {:induction false} ChainKeepsBlocks(x: E.Engine, b: K.Block, chain: nat, evicted: set<u64>, ran: nat)
    requires chain < E.MAX_CHAIN_DEPTH
    ensures var y := E.RunChained(x, b, chain, evicted, ran).x; y.generation == x.generation && y.blocks == x.blocks
    decreases E.MAX_CHAIN_DEPTH - chain, 0
  {
    hide E.TryBlock, K.RunBlock, K.Steps, T.HandleTrap;
    match K.RunBlock(b, x.s)
    case Continue(u, pc) =>
      if chain + 1 < E.MAX_CHAIN_DEPTH {
        TryCompilesOnce(x.(s := u.(hart := u.hart.(pc := pc))), chain + 1, evicted, ran + K.Steps(b, 0, x.s));
      }
    case _ =>
  }

  /** Steps keep the cache fresh while code bytes and address space stay. */
  lemma StepKeepsFresh(pt: Tables, code: iset<int>, c: M.Context, s0: I.State, x: E.Engine, choice: E.Choice)
    requires C.Setting(pt, code, c, s0) && Fresh(code, c, s0, x) && Same(pt, code, c, s0, x.s)
    requires C.ReadsIn(code, s0.mem, c, x.s.hart.pc)
    ensures Fresh(code, c, s0, E.Step(x, choice).x)
  {
    hide F.SpaceOf, C.ReadsIn, F.Fit, F.Disjoint, C.PlanFor, K.Compile, Agree, F.Sane, F.OnlyMarked, F.Tabled, E.Step,
      E.TryBlock, C.Follows, B.Chained, P.Resolve;
    var pc := x.s.hart.pc;
    StepCompilesOnce(x, choice);
    SameIsSane(pt, code, c, s0, x.s);
    B.KeptPlan(pt, code, c, s0, x.s, pc, x.generation);
    B.CompilePlans(pt, code, x.s, x.generation);
    B.Layout(s0.mem, c, pc, x.generation);
  }

  // ---- A stale block where nothing can be fetched any more ---------------------------------------------------

  /** Traps an operation of a block can report. */
  predicate DataTrap(t: Trap) {
    || t.LoadAddressMisaligned? || t.LoadAccessFault? || t.LoadPageFault?
    || t.StoreAddressMisaligned? || t.StoreAccessFault? || t.StorePageFault?
  }

  lemma TranslateTraps(s: I.State, addr: u64, access: M.Access)
    requires access != M.Instruction
    ensures var t := I.Translate(s, addr, access); t.res.Err? ==> DataTrap(t.res.trap)
  {
    hide M.FindLeaf, M.Canonical, M.VpnFull, M.ResultPpn, M.Permitted, Unpack, Pack;
  }

  lemma LoadTraps(s: I.State, rd: D.Reg, rs1: D.Reg, imm: int, w: Width, signed: bool, pc: u64)
    ensures var o := K.LoadOp(s, rd, rs1, imm, w, signed, pc); (o.Trapped? ==> DataTrap(o.trap)) && !o.Exit?
  {
    hide I.Translate, WrappingAdd, ToU64, Extract, InDram, I.SextTo64;
    TranslateTraps(s, WrappingAdd(s.hart.regs[rs1], ToU64(imm)), M.Load);
  }

  lemma StoreTraps(s: I.State, rs1: D.Reg, rs2: D.Reg, imm: int, w: Width, pc: u64)
    ensures var o := K.StoreOp(s, rs1, rs2, imm, w, pc); (o.Trapped? ==> DataTrap(o.trap)) && !o.Exit?
  {
    hide I.Translate, WrappingAdd, ToU64, Insert, InDram, ClearConflict;
    TranslateTraps(s, WrappingAdd(s.hart.regs[rs1], ToU64(imm)), M.Store);
  }

  lemma AccessTraps(op: Micro.MicroOp, pc: u64, s: I.State)
    requires Micro.KindOf(op) == Micro.Access
    ensures var o := K.AccessOp(op, pc, s); (o.Trapped? ==> DataTrap(o.trap)) && !o.Exit?
  {
    forall rd: D.Reg, rs1: D.Reg, imm: int, w: Width, signed: bool
      ensures var o := K.LoadOp(s, rd, rs1, imm, w, signed, pc); (o.Trapped? ==> DataTrap(o.trap)) && !o.Exit?
    {
      LoadTraps(s, rd, rs1, imm, w, signed, pc);
    }
    forall rs1: D.Reg, rs2: D.Reg, imm: int, w: Width
      ensures var o := K.StoreOp(s, rs1, rs2, imm, w, pc); (o.Trapped? ==> DataTrap(o.trap)) && !o.Exit?
    {
      StoreTraps(s, rs1, rs2, imm, w, pc);
    }
    hide K.LoadOp, K.StoreOp, DataTrap;
  }

  lemma OpTraps(op: Micro.MicroOp, base: u64, s: I.State)
    ensures var o := K.MicroStep(op, base, s); o.Trapped? ==> DataTrap(o.trap)
    ensures K.MicroStep(op, base, s).Exit? <==> Micro.KindOf(op) == Micro.Leave
  {
    hide K.AluWrite, K.AccessOp, K.TransferOp, Micro.KindOf, Micro.PcOffset, DataTrap;
    if Micro.KindOf(op) == Micro.Access {
      AccessTraps(op, ToU64(base + Micro.PcOffset(op)), s);
    }
  }

  lemma {:induction false} RunTraps(b: K.Block, idx: nat, s: I.State)
    requires idx <= |b.ops|
    ensures var o := K.RunOps(b, idx, s); o.Trapped? ==> DataTrap(o.trap)
    decreases |b.ops| - idx
  {
    hide K.MicroStep;
    if idx < |b.ops| {
      OpTraps(b.ops[idx], b.startPc, s);
      var o := K.MicroStep(b.ops[idx], b.startPc, s);
      if o.Next? {
        RunTraps(b, idx + 1, o.s);
      }
    }
  }

  lemma {:induction false} ChainTraps(x: E.Engine, b: K.Block, chain: nat, evicted: set<u64>, ran: nat)
    requires chain < E.MAX_CHAIN_DEPTH
    ensures var o := E.RunChained(x, b, chain, evicted, ran);
            && (o.Finished? && o.err.Some? ==> DataTrap(o.err.value))
            && o.ran >= ran + K.Steps(b, 0, x.s)
    decreases E.MAX_CHAIN_DEPTH - chain
  {
    hide K.RunOps, K.Steps, T.HandleTrap, K.Compile, DataTrap;
    RunTraps(b, 0, x.s);
    match K.RunBlock(b, x.s)
    case Continue(u, pc) =>
      var y := x.(s := u.(hart := u.hart.(pc := pc)));
      if chain + 1 < E.MAX_CHAIN_DEPTH && b.next == Some(pc) {
        match E.Lookup(y, pc)
        case Some(b') => ChainTraps(y, b', chain + 1, evicted, ran + K.Steps(b, 0, x.s));
        case None =>
      }
    case _ =>
  }

  lemma ExpandTraps(half: D.u16)
    ensures D.ExpandCompressed(half).Err? ==> D.ExpandCompressed(half).trap.IllegalInstruction?
  {
  }

  lemma FetchTranslateTraps(s: I.State, addr: u64)
    ensures var t := I.Translate(s, addr, M.Instruction); t.res.Err? ==> !DataTrap(t.res.trap)
  {
    hide M.FindLeaf, M.Canonical, M.VpnFull, M.ResultPpn, M.Permitted, Unpack, Pack;
  }

  lemma HalvesTraps(s: I.State, pc: u64)
    ensures var f := I.FetchHalves(s, pc); f.NotFetched? ==> !DataTrap(f.trap)
  {
    hide I.Translate, D.ExpandCompressed, Extract, InDram;
    var low := I.Translate(s, pc, M.Instruction);
    FetchTranslateTraps(s, pc);
    FetchTranslateTraps(low.s, WrappingAdd(pc, 2));
    if low.res.Ok? && Read(low.s.mem, low.res.value, W16).Ok? {
      ExpandTraps(Read(low.s.mem, low.res.value, W16).value);
    }
  }

  lemma FetchTraps(s: I.State)
    ensures var f := I.FetchAndExpand(s); f.NotFetched? ==> !DataTrap(f.trap)
  {
    hide I.Translate, D.ExpandCompressed, Read, I.FetchHalves;
    var at := I.Translate(s, s.hart.pc, M.Instruction);
    FetchTranslateTraps(s, s.hart.pc);
    HalvesTraps(s, s.hart.pc);
    HalvesTraps(at.s, s.hart.pc);
    if at.res.Ok? && Read(at.s.mem, at.res.value, W32).Ok? {
      ExpandTraps(Read(at.s.mem, at.res.value, W32).value % 0x1_0000);
    }
  }

  /** Where nothing can be fetched at pc, a step that finds a block there does what the interpreter does, in
      one instruction, if and only if the block's first operation hands its instruction back. */
  lemma StaleExact(x: E.Engine, b: K.Block, choice: E.Choice)
    requires choice.useBlocks && E.Lookup(x, x.s.hart.pc) == Some(b)
    requires |b.ops| > 0 && ToU64(b.startPc + Micro.PcOffset(b.ops[0])) == x.s.hart.pc
    requires I.FetchAndExpand(x.s).NotFetched?
    ensures var r, i := E.Step(x, choice), I.StepSingle(x.s);
            (r.x.s == i.next && r.err == i.err && r.ran == 1) <==> Micro.KindOf(b.ops[0]) == Micro.Leave
  {
    hide E.TryBlock, E.RunChained, E.StepSingle, E.Step, I.FetchAndExpand, I.Fault, K.MicroStep, Micro.PcOffset,
      Micro.KindOf, DataTrap;
    StepCases(x, choice);
    FoundRuns(x, b, choice.evicted);
    OpTraps(b.ops[0], b.startPc, x.s);
    FetchTraps(x.s);
    B.FaultReports(I.FetchAndExpand(x.s).s, I.FetchAndExpand(x.s).trap);
    if Micro.KindOf(b.ops[0]) == Micro.Leave {
      HandsBack(x, b, choice.evicted);
      NotFetchedSingle(x);
    } else {
      ChainTraps(x, b, 0, choice.evicted, 0);
      FirstCounts(b, x.s);
    }
  }

  lemma FoundRuns(x: E.Engine, b: K.Block, evicted: set<u64>)
    requires E.Lookup(x, x.s.hart.pc) == Some(b)
    ensures E.TryBlock(x, 0, evicted, 0) == E.RunChained(x, b, 0, evicted, 0)
  {
    hide E.RunChained, K.Compile;
  }

  lemma HandsBack(x: E.Engine, b: K.Block, evicted: set<u64>)
    requires |b.ops| > 0 && ToU64(b.startPc + Micro.PcOffset(b.ops[0])) == x.s.hart.pc
    requires Micro.KindOf(b.ops[0]) == Micro.Leave
    ensures E.RunChained(x, b, 0, evicted, 0) == E.Fallback(x, 0)
  {
    hide K.AluWrite, K.AccessOp, K.TransferOp, Micro.PcOffset, Micro.KindOf, T.HandleTrap, E.TryBlock;
    assert x.s.(hart := x.s.hart.(pc := x.s.hart.pc)) == x.s;
    assert x.(s := x.s) == x;
  }

  lemma NotFetchedSingle(x: E.Engine)
    requires I.FetchAndExpand(x.s).NotFetched?
    ensures E.StepSingle(x).x.s == I.StepSingle(x.s).next && E.StepSingle(x).err == I.StepSingle(x.s).err
            && E.StepSingle(x).ran == 1
  {
    hide I.FetchAndExpand, I.Fault;
  }

  lemma FirstCounts(b: K.Block, s: I.State)
    requires |b.ops| > 0 && !K.MicroStep(b.ops[0], b.startPc, s).Exit?
    ensures K.Steps(b, 0, s) > 0
  {
    hide K.MicroStep;
  }
}
