/** Concrete inputs: a run in which a stale block is executed, a block that reads a mark the interpreter has
    not set yet, and an endless run that is good. */
module Departures {
  import opened Base
  import opened Bits
  import opened Memory
  import M = Mmu
  import P = MmuProofs
  import D = Decoder
  import opened HartState
  import Micro
  import T = Traps
  import I = Interpreter
  import K = Block
  import F = FetchProofs
  import C = BlockCorrect
  import B = BlockTheorems
  import opened ProgramText
  import E = Engine
  import opened EngineProofs
  import opened Freshness

  // ---- Common to the examples --------------------------------------------------------------------------------

  const ENTRY: u64 := 0x8000_0000

  const NOP: u32 := 0x0000_0013
  const MRET: u32 := 0x3020_0073

  function ZeroRegs(): Regs {
    seq(32, _ => 0)
  }

  function ZeroCsrs(): CsrView {
    seq(4096, _ => 0)
  }

  lemma IdentityTranslates(s: I.State, va: u64, access: M.Access)
    requires F.SpaceOf(I.ContextOf(s.hart)) == F.Identity
    ensures I.Translate(s, va, access) == I.Translated(s, Ok(va))
  {
    hide M.Levels, M.WalkAndFill, M.Canonical, M.VpnFull;
  }

  /** Fetching a whole aligned word with translation off. */
  lemma IdentityFetches(s: I.State, at: u64, word: u32)
    requires F.SpaceOf(I.ContextOf(s.hart)) == F.Identity && at % 4 == 0
    requires Read(s.mem, at, W32) == Ok(word) && word % 4 == 3
    ensures K.FetchInsn(s, at) == I.Fetched(s, word, 4)
    ensures s.hart.pc == at ==> I.FetchAndExpand(s) == I.Fetched(s, word, 4)
  {
    hide I.Translate, Read, D.ExpandCompressed, F.SpaceOf, I.ContextOf, I.FetchHalves;
    IdentityTranslates(s, at, M.Instruction);
    F.EvenAddress(at);
  }

  // ---- A stale block -------------------------------------------------------------------------------------------

  /** A no-op and MRET at ENTRY. */
  function StaleMem(): Mem {
    Mem(ENTRY, 0x1_0000, map[0x1000_0000 := 0x3020_0073_0000_0013])
  }

  /** In Machine mode, about to return to Supervisor mode at ENTRY itself, where satp maps nothing. */
  function StaleHart(): Hart {
    Hart(ZeroRegs(), ENTRY, None,
         ZeroCsrs()[CSR_SATP := 0x8000_0000_0008_0001][CSR_MSTATUS := 0x800][CSR_MEPC := ENTRY], Machine)
  }

  function StaleStart(): I.State {
    I.State(StaleHart(), M.EmptyTlb(), StaleMem())
  }

  /** The block at ENTRY. */
  const STALE_BLOCK := K.Block(ENTRY, ENTRY, [Micro.Addi(0, 0, 0), Micro.Mret(4)], 8, None, 0)

  lemma StaleCode()
    ensures Read(StaleMem(), ENTRY, W32) == Ok(NOP) && Read(StaleMem(), ENTRY + 4, W32) == Ok(MRET)
    ensures D.Decode(NOP) == Ok(D.OpImm(0, 0, 0, 0, 0)) && D.Decode(MRET) == Ok(D.System(0, 0, 0, 0x302))
  {
  }

  const STALE_FIRST := K.Block(ENTRY, ENTRY, [Micro.Addi(0, 0, 0)], 4, None, 0)

  lemma StaleOps()
    ensures Micro.Transcode(D.OpImm(0, 0, 0, 0, 0), 0, 4) == Micro.Addi(0, 0, 0)
    ensures Micro.Transcode(D.System(0, 0, 0, 0x302), 4, 4) == Micro.Mret(4)
    ensures !Micro.IsTerminator(Micro.Addi(0, 0, 0)) && Micro.IsTerminator(Micro.Mret(4))
  {
  }

  lemma StaleAdvances()
    ensures K.Advance(K.Block(ENTRY, ENTRY, [], 0, None, 0), NOP, 4, ENTRY, 0) == K.More(STALE_FIRST, ENTRY + 4)
    ensures K.Advance(STALE_FIRST, MRET, 4, ENTRY + 4, 4) == K.Done(STALE_BLOCK)
  {
    hide D.Decode, Micro.Transcode, Micro.IsTerminator;
    StaleCode();
    StaleOps();
    assert STALE_FIRST.ops + [Micro.Mret(4)] == STALE_BLOCK.ops;
  }

  lemma StaleCompiles(s: I.State)
    requires F.SpaceOf(I.ContextOf(s.hart)) == F.Identity && s.mem == StaleMem()
    ensures K.Compile(s, ENTRY, 0) == K.Compiled(s, STALE_BLOCK)
  {
    hide K.FetchInsn, D.Decode, I.Translate, Read, K.Advance, StaleMem, F.SpaceOf, I.ContextOf;
    StaleCode();
    StaleAdvances();
    IdentityTranslates(s, ENTRY, M.Instruction);
    IdentityFetches(s, ENTRY, NOP);
    IdentityFetches(s, ENTRY + 4, MRET);
    assert K.CompileFrom(s, STALE_FIRST, ENTRY + 4, 4) == K.Compiled(s, STALE_BLOCK);
  }

  /** Wherever it is run, the block hands MRET's address back after one operation. */
  lemma StaleBlockRuns(s: I.State)
    ensures K.RunBlock(STALE_BLOCK, s) == K.Exit(s, ENTRY + 4) && K.Steps(STALE_BLOCK, 0, s) == 1
  {
    var w := K.AluWrite(STALE_BLOCK.ops[0], ENTRY, s.hart.regs);
    assert w.rd == 0 && I.SetReg(s, w.rd, w.v) == s;
    assert K.MicroStep(STALE_BLOCK.ops[0], ENTRY, s) == K.Next(s);
    assert K.MicroStep(STALE_BLOCK.ops[1], ENTRY, s) == K.Exit(s, ENTRY + 4);
    assert K.RunOps(STALE_BLOCK, 1, s) == K.Exit(s, ENTRY + 4);
    hide K.AluWrite, K.AccessOp, K.TransferOp;
  }

  /** MRET executed in the first step: Supervisor mode, at ENTRY again. */
  function Returned(): I.State {
    StaleStart().(hart := T.Mret(StaleHart()))
  }

  lemma StatusBits()
    ensures T.MppMode(0x800) == Supervisor
  {
    assert Bit(0x800, 11) && !Bit(0x800, 12);
  }

  lemma StartSpaces()
    ensures F.SpaceOf(I.ContextOf(StaleHart())) == F.Identity && StaleHart().pc == ENTRY
    ensures Returned().hart.mode == Supervisor && Returned().hart.pc == ENTRY
    ensures Returned().hart.csrs[CSR_SATP] == 0x8000_0000_0008_0001
    ensures Returned().tlb == M.EmptyTlb() && Returned().mem == StaleMem()
  {
    StatusBits();
    hide T.MppMode, T.StatusMret;
  }

  /** Nothing is mapped at ENTRY. */
  lemma NothingMapped(c: M.Context, va: u64)
    requires c.mode == Supervisor && c.satp == 0x8000_0000_0008_0001 && ENTRY <= va < ENTRY + 0x1000
    ensures M.Translate(M.EmptyTlb(), StaleMem(), c, va, M.Instruction).res == Err(InstructionPageFault(va))
  {
    assert va / 4096 == 0x8_0000;
    assert M.Vpn(va, 2) == 2 && M.Levels(c.satp) == 3 && M.Root(c.satp) == 0x8_0001;
    assert M.PteAddr(0x8_0001, va, 2) == 0x8000_1010;
    assert Read(StaleMem(), 0x8000_1010, W64) == Ok(0);
    assert M.FindLeaf(StaleMem(), 0x8_0001, va, 2) == M.BadEntry;
    hide M.FindLeaf, M.Vpn, M.PteAddr;
  }

  lemma UnmappedStep(s: I.State)
    requires s.hart.mode == Supervisor && s.hart.csrs[CSR_SATP] == 0x8000_0000_0008_0001
    requires s.tlb == M.EmptyTlb() && s.mem == StaleMem() && (s.hart.pc == ENTRY || s.hart.pc == ENTRY + 4)
    ensures I.FetchAndExpand(s).NotFetched? && I.StepSingle(s).err == Some(InstructionPageFault(s.hart.pc))
  {
    hide M.Translate, StaleMem, I.FetchHalves, D.ExpandCompressed, T.HandleTrap, Read, M.EmptyTlb;
    NothingMapped(I.ContextOf(s.hart), s.hart.pc);
  }

  lemma StaleChain(x: E.Engine, evicted: set<u64>)
    ensures E.RunChained(x, STALE_BLOCK, 0, evicted, 0) == E.Fallback(x.(s := C.WithPc(x.s, ENTRY + 4)), 1)
  {
    hide K.RunBlock, K.Steps, E.TryBlock, T.HandleTrap;
    StaleBlockRuns(x.s);
  }

  /** An engine step that compiles the block, or finds it. */
  lemma StaleStep(x: E.Engine, choice: E.Choice)
    requires choice.useBlocks && x.s.hart.pc == ENTRY && x.generation == 0 && DecodeGood(x.decoded)
    requires E.Lookup(x, ENTRY) == Some(STALE_BLOCK)
             || (x.blocks == map[] && K.Compile(x.s, ENTRY, 0) == K.Compiled(x.s, STALE_BLOCK))
    ensures var r, one := E.Step(x, choice), I.StepSingle(C.WithPc(x.s, ENTRY + 4));
            && r.err == one.err && r.x.s == one.next && r.ran == 2 && DecodeGood(r.x.decoded)
            && E.Lookup(r.x, ENTRY) == Some(STALE_BLOCK) && r.x.generation == 0
  {
    hide E.StepSingle, K.Compile, E.RunChained, I.Fault, E.Step, I.StepSingle, DecodeGood;
    var blocks := if x.blocks == map[] then E.Inserted(x.blocks, STALE_BLOCK, choice.evicted) else x.blocks;
    StepCases(x, choice);
    StaleChain(x, choice.evicted);
    StaleChain(x.(blocks := blocks), choice.evicted);
    var y := x.(s := C.WithPc(x.s, ENTRY + 4), blocks := blocks);
    DecodeCacheTransparent(y);
  }

  lemma NopStep(s: I.State)
    requires F.SpaceOf(I.ContextOf(s.hart)) == F.Identity && s.mem == StaleMem() && s.hart.pc == ENTRY
    ensures I.StepSingle(s) == I.Step(C.WithPc(s, ENTRY + 4), None)
  {
    hide I.FetchAndExpand, D.Decode, Read, StaleMem, F.SpaceOf, I.ContextOf;
    StaleCode();
    IdentityFetches(s, ENTRY, NOP);
    assert I.OpImmValue(0, 0, 0, 0) == Some(0);
    assert I.StepSingle(s) == I.Execute(D.OpImm(0, 0, 0, 0, 0), NOP, 4, s);
    hide I.OpImmValue;
  }

  lemma MretStep(s: I.State)
    requires s.hart.mode == Machine && s.mem == StaleMem() && s.hart.pc == ENTRY + 4
    ensures I.StepSingle(s) == I.Step(s.(hart := T.Mret(s.hart)), None)
  {
    hide I.FetchAndExpand, D.Decode, Read, StaleMem, T.Mret;
    StaleCode();
    IdentityFetches(s, ENTRY + 4, MRET);
    assert !I.IsSfenceVma(MRET);
    assert I.StepSingle(s) == I.Execute(D.System(0, 0, 0, 0x302), MRET, 4, s);
  }

  lemma StartRuns()
    ensures C.After(StaleStart(), 1) == C.WithPc(StaleStart(), ENTRY + 4) && C.After(StaleStart(), 2) == Returned()
    ensures I.StepSingle(C.WithPc(StaleStart(), ENTRY + 4)) == I.Step(Returned(), None)
  {
    hide I.StepSingle, T.StatusMret, T.MppMode, ZeroCsrs, ZeroRegs, StaleMem, M.EmptyTlb;
    StartSpaces();
    var s := StaleStart();
    var t := C.WithPc(s, ENTRY + 4);
    NopStep(s);
    MretStep(t);
    assert T.Mret(t.hart) == T.Mret(s.hart);
    assert C.After(t, 1) == C.After(I.StepSingle(t).next, 0);
    assert C.After(s, 2) == C.After(t, 1);
    assert C.After(s, 1) == C.After(t, 0);
  }

  /** Two steps from cold caches.  The first caches the block at ENTRY and executes MRET, as the interpreter
      does; the second runs that block at ENTRY, where nothing is mapped any more, and reports a page fault
      at MRET's address where the interpreter reports one at ENTRY. */
  lemma StaleRun(choice: E.Choice)
    requires choice.useBlocks
    ensures var x, y := Cold(StaleStart()), E.Step(Cold(StaleStart()), choice).x;
            && E.Step(x, choice).err == None && E.Step(x, choice).ran == 2
            && y.s == C.After(StaleStart(), 2)
            && E.Step(y, choice).err == Some(InstructionPageFault(ENTRY + 4))
            && I.StepSingle(C.After(StaleStart(), 2)).err == Some(InstructionPageFault(ENTRY))
  {
    hide E.Step, I.StepSingle, C.After, K.Compile, StaleHart, T.Mret, F.SpaceOf, I.ContextOf, StaleMem, M.EmptyTlb;
    StartSpaces();
    StartRuns();
    var x := Cold(StaleStart());
    StaleCompiles(x.s);
    StaleStep(x, choice);
    var y := E.Step(x, choice).x;
    StaleStep(y, choice);
    UnmappedStep(y.s);
    UnmappedStep(C.WithPc(y.s, ENTRY + 4));
  }

  // ---- A block that overwrites itself -------------------------------------------------------------------------

  const STORE: u32 := 0x0053_2223
  const EBREAK: u32 := 0x0010_0073

  /** At ENTRY, a store of x5 over the instruction that follows, a jump to itself. */
  function PatchMem(second: u32): Mem {
    Mem(ENTRY, 0x1_0000, map[0x1000_0000 := second * 0x1_0000_0000 + STORE])
  }

  function PatchStart(): I.State {
    I.State(Hart(ZeroRegs()[5 := EBREAK][6 := ENTRY], ENTRY, None, ZeroCsrs(), Machine), M.EmptyTlb(), PatchMem(SPIN))
  }

  const PATCH_FIRST := K.Block(ENTRY, ENTRY, [Micro.Sw(6, 5, 4, 0)], 4, None, 0)
  const PATCH_BLOCK := K.Block(ENTRY, ENTRY, [Micro.Sw(6, 5, 4, 0), Micro.Jal(0, 0, 4, 4)], 8, Some(ENTRY + 4), 0)

  lemma PatchHalves(second: u32)
    ensures Extract(second * 0x1_0000_0000 + STORE, ENTRY, W32) == STORE
    ensures Extract(second * 0x1_0000_0000 + STORE, ENTRY + 4, W32) == second
  {
    assert (second * 0x1_0000_0000 + STORE) / 0x1_0000_0000 == second;
  }

  lemma PatchCode(second: u32)
    ensures Read(PatchMem(second), ENTRY, W32) == Ok(STORE) && Read(PatchMem(second), ENTRY + 4, W32) == Ok(second)
  {
    hide Extract;
    PatchHalves(second);
  }

  lemma PatchInserts()
    ensures Insert(SPIN * 0x1_0000_0000 + STORE, ENTRY + 4, W32, EBREAK) == EBREAK * 0x1_0000_0000 + STORE
  {
    assert Extract(SPIN * 0x1_0000_0000 + STORE, ENTRY + 4, W32) == SPIN;
    assert LaneUnit((ENTRY + 4) % 8) == 0x1_0000_0000;
    hide Extract, LaneUnit;
  }

  lemma PatchWrites()
    ensures Write(PatchMem(SPIN), ENTRY + 4, W32, EBREAK) == Ok(PatchMem(EBREAK))
  {
    hide Insert;
    PatchInserts();
    var words := PatchMem(SPIN).words;
    assert words[0x1000_0000 := EBREAK * 0x1_0000_0000 + STORE] == PatchMem(EBREAK).words;
  }

  lemma PatchDecodes()
    ensures D.Decode(STORE) == Ok(D.Store(6, 5, 4, 2)) && D.Decode(SPIN) == Ok(D.Jal(0, 0))
    ensures D.Decode(EBREAK) == Ok(D.System(0, 0, 0, 1))
  {
  }

  lemma PatchOps()
    ensures Micro.Transcode(D.Store(6, 5, 4, 2), 0, 4) == Micro.Sw(6, 5, 4, 0)
            && !Micro.IsTerminator(Micro.Sw(6, 5, 4, 0))
    ensures Micro.Transcode(D.Jal(0, 0), 4, 4) == Micro.Jal(0, 0, 4, 4) && Micro.IsTerminator(Micro.Jal(0, 0, 4, 4))
  {
  }

  lemma PatchAdvances()
    ensures K.Advance(K.Block(ENTRY, ENTRY, [], 0, None, 0), STORE, 4, ENTRY, 0) == K.More(PATCH_FIRST, ENTRY + 4)
    ensures K.Advance(PATCH_FIRST, SPIN, 4, ENTRY + 4, 4) == K.Done(PATCH_BLOCK)
  {
    hide D.Decode, Micro.Transcode, Micro.IsTerminator;
    PatchDecodes();
    PatchOps();
    assert PATCH_FIRST.ops + [Micro.Jal(0, 0, 4, 4)] == PATCH_BLOCK.ops;
  }

  lemma PatchCompiles(s: I.State)
    requires F.SpaceOf(I.ContextOf(s.hart)) == F.Identity && s.mem == PatchMem(SPIN)
    ensures K.Compile(s, ENTRY, 0) == K.Compiled(s, PATCH_BLOCK)
  {
    hide K.FetchInsn, D.Decode, I.Translate, Read, K.Advance, PatchMem, F.SpaceOf, I.ContextOf;
    PatchCode(SPIN);
    PatchAdvances();
    IdentityTranslates(s, ENTRY, M.Instruction);
    IdentityFetches(s, ENTRY, STORE);
    IdentityFetches(s, ENTRY + 4, SPIN);
    assert K.CompileFrom(s, PATCH_FIRST, ENTRY + 4, 4) == K.Compiled(s, PATCH_BLOCK);
  }

  /** The state after the store. */
  function Patched(): I.State {
    PatchStart().(mem := PatchMem(EBREAK))
  }

  lemma PatchSpace()
    ensures F.SpaceOf(I.ContextOf(PatchStart().hart)) == F.Identity
    ensures PatchStart().hart.regs[0] == 0 && PatchStart().hart.regs[5] == EBREAK && PatchStart().hart.regs[6] == ENTRY
    ensures PatchStart().hart.pc == ENTRY && PatchStart().mem == PatchMem(SPIN)
    ensures PatchStart().hart.reservation == None
  {
    hide M.Levels, PatchMem;
  }

  lemma PatchStores()
    ensures K.MicroStep(PATCH_BLOCK.ops[0], ENTRY, PatchStart()) == K.Next(Patched())
  {
    hide I.Translate, Write, PatchStart, PatchMem, F.SpaceOf, I.ContextOf;
    PatchSpace();
    PatchWrites();
    var s := PatchStart();
    IdentityTranslates(s, ENTRY + 4, M.Store);
    assert WrappingAdd(ENTRY, ToU64(4)) == ENTRY + 4;
    assert s.hart.(reservation := None) == s.hart;
  }

  lemma PatchJumps(s: I.State)
    ensures K.MicroStep(PATCH_BLOCK.ops[1], ENTRY, s) == K.Continue(s, ENTRY + 4)
  {
    hide K.AluWrite, K.AccessOp;
    assert WrappingAdd(ENTRY + 4, ToU64(0)) == ENTRY + 4;
    assert K.TransferOp(PATCH_BLOCK.ops[1], ENTRY + 4, s) == K.Continue(s, ENTRY + 4);
  }

  /** The block stores, and then jumps to ENTRY + 4 as it was. */
  lemma PatchBlockRuns()
    ensures K.RunBlock(PATCH_BLOCK, PatchStart()) == K.Continue(Patched(), ENTRY + 4)
    ensures K.Steps(PATCH_BLOCK, 0, PatchStart()) == 2
  {
    hide PatchStart, Patched, K.MicroStep;
    PatchStores();
    PatchJumps(Patched());
    assert K.RunOps(PATCH_BLOCK, 1, Patched()) == K.Continue(Patched(), ENTRY + 4);
    assert K.Steps(PATCH_BLOCK, 1, Patched()) == 1;
  }

  lemma PatchInterpreted()
    ensures I.StepSingle(PatchStart()) == I.Step(C.WithPc(Patched(), ENTRY + 4), None)
    ensures I.StepSingle(C.WithPc(Patched(), ENTRY + 4)).err == Some(Breakpoint)
  {
    hide I.Translate, Write, Read, I.FetchAndExpand, PatchStart, PatchMem, F.SpaceOf, I.ContextOf, D.Decode,
      T.HandleTrap;
    PatchSpace();
    PatchWrites();
    PatchCode(SPIN);
    PatchCode(EBREAK);
    PatchDecodes();
    var s, t := PatchStart(), C.WithPc(Patched(), ENTRY + 4);
    IdentityFetches(s, ENTRY, STORE);
    IdentityTranslates(s, ENTRY + 4, M.Store);
    assert WrappingAdd(ENTRY, ToU64(4)) == ENTRY + 4;
    assert s.hart.(reservation := None) == s.hart;
    assert I.ExecStore(s, 6, 5, 4, 2, STORE, ENTRY + 4) == I.Step(t, None);
    SameSpace(s, t);
    IdentityFetches(t, ENTRY + 4, EBREAK);
    assert !I.IsSfenceVma(EBREAK);
  }

  lemma SameSpace(s: I.State, t: I.State)
    requires s.hart.csrs == t.hart.csrs && s.hart.mode == t.hart.mode
    ensures I.ContextOf(s.hart) == I.ContextOf(t.hart)
  {
  }

  /** One step from cold caches: the block runs the instruction it has just overwritten, the interpreter the
      one that was stored. */
  lemma PatchRun(choice: E.Choice)
    requires choice.useBlocks
    ensures var s, r := PatchStart(), E.Step(Cold(PatchStart()), choice);
            && r.err == None && r.ran == 2 && r.x.s == C.After(s, 1)
            && I.StepSingle(C.After(s, 1)).err == Some(Breakpoint)
  {
    hide I.StepSingle, K.Compile, PatchStart, Patched, K.RunOps, K.Steps, F.SpaceOf, I.ContextOf, E.StepSingle, E.Step,
      I.Fault;
    var x := Cold(PatchStart());
    PatchSpace();
    PatchCompiles(x.s);
    PatchBlockRuns();
    PatchInterpreted();
    B.StepsStart(x.s);
    StepCases(x, choice);
    assert x.(s := x.s) == x;
  }

  // ---- A mark seen too early ---------------------------------------------------------------------------------

  const LOAD: u32 := 0x0081_3083
  const LAST: u64 := 0x3FFF_FFFA
  const UNMARKED: u64 := 0x1000_000B
  const MARKED: u64 := 0x1000_004B

  /** Sv39 with the root table at 0x1000: two gigabyte pages, the first accessed already, the second as given.
      At the end of the first page, a load of the second entry and a jump that reaches into the second page. */
  function GigaMem(second: u64): Mem {
    Mem(0, 0x8000_0000, map[0x200 := 0x4B, 0x201 := second, 0x7FF_FFFF := 0x006F_0081_3083_0000])
  }

  const GIGA_SATP: u64 := 0x8000_0000_0000_0001

  function GigaStart(): I.State {
    I.State(Hart(ZeroRegs()[2 := 0x1000], LAST, None, ZeroCsrs()[CSR_SATP := GIGA_SATP], Supervisor), M.EmptyTlb(),
            GigaMem(UNMARKED))
  }

  predicate GigaHart(h: Hart) {
    h.mode == Supervisor && h.csrs[CSR_SATP] == GIGA_SATP && h.regs[2] == 0x1000
  }

  /** What the TLB may hold for the last small page of the first gigabyte. */
  const LAST_ENTRY := M.TlbEntry(0x3_FFFF, 0x3_FFFF, 0, M.Perm(true, false, true, false, false, true, false), 2, true)

  /** Nothing but that entry where it matters. */
  predicate GigaTlb(t: M.TlbView) {
    !t[0].valid && !t[1].valid && (t[63] == LAST_ENTRY || !t[63].valid)
  }

  lemma GigaWalk(second: u64, va: u64)
    requires va < 0x4000_0000
    ensures M.FindLeaf(GigaMem(second), 1, va, 2) == M.Leaf(0x1000, Unpack(0x4B), 2)
    ensures M.Levels(GIGA_SATP) == 3 && M.Root(GIGA_SATP) == 1 && M.Asid(GIGA_SATP) == 0 && M.Canonical(3, va)
    ensures M.VpnFull(3, va) == va / 4096
  {
    assert va / 4096 < 0x4_0000;
    assert M.Vpn(va, 2) == 0;
    assert M.PteAddr(1, va, 2) == 0x1000;
    assert Read(GigaMem(second), 0x1000, W64) == Ok(0x4B);
    hide M.PteAddr, M.Vpn;
  }

  lemma GigaEntries()
    ensures Unpack(0x4B) == Pte(true, true, false, true, false, false, true, false, 0)
    ensures Unpack(UNMARKED) == Pte(true, true, false, true, false, false, false, false, 0x10_0000)
    ensures Pack(Unpack(UNMARKED).(a := true)) == MARKED
  {
  }

  /** The first gigabyte is mapped to itself, readable and executable. */
  lemma GigaLeaf(c: M.Context, va: u64, access: M.Access)
    requires c.mode == Supervisor && va < 0x4000_0000 && access != M.Store
    ensures var p := Unpack(0x4B);
            && M.Permitted(c.mode, c.mstatus, M.PtePerm(p), access) && M.SuperpageAligned(p, 2)
               && M.Marked(p, access) == p
            && M.PtePerm(p) == LAST_ENTRY.perm
            && M.ResultPpn(p, 2, va) == va / 4096 && M.PhysAddr(va / 4096, va) == va
  {
    GigaEntries();
    assert va / 4096 < 0x4_0000;
    hide Unpack;
  }

  /** A walk in the first gigabyte changes no table. */
  lemma GigaWalks(t: M.TlbView, c: M.Context, second: u64, va: u64, access: M.Access)
    requires c.mode == Supervisor && c.satp == GIGA_SATP && va < 0x4000_0000 && access != M.Store
    ensures M.WalkAndFill(t, GigaMem(second), c, va, access)
         == M.Outcome(t[M.Slot(va / 4096) := M.TlbEntry(va / 4096, va / 4096, 0, LAST_ENTRY.perm, 2, true)],
                      GigaMem(second), Ok(va))
  {
    hide M.FindLeaf, Unpack, Pack, GigaMem, M.Levels, M.Root, M.Asid, M.VpnFull, M.ResultPpn, M.PhysAddr, M.Permitted,
      M.SuperpageAligned, M.PtePerm, M.Marked, M.Slot;
    GigaWalk(second, va);
    GigaLeaf(c, va, access);
  }

  /** Instruction addresses in the last small page of the first gigabyte translate to themselves, by hit or walk. */
  lemma GigaFetches(s: I.State, va: u64)
    requires GigaHart(s.hart) && s.mem == GigaMem(UNMARKED) && GigaTlb(s.tlb) && 0x3FFF_F000 <= va < 0x4000_0000
    ensures var t := I.Translate(s, va, M.Instruction);
            t.res == Ok(va) && t.s.hart == s.hart && t.s.mem == s.mem && GigaTlb(t.s.tlb)
  {
    hide M.WalkAndFill, Unpack, GigaMem, M.Levels, M.Root, M.Asid, M.VpnFull, M.PhysAddr, M.Permitted, M.PtePerm,
      M.Canonical;
    GigaWalk(UNMARKED, va);
    GigaLeaf(I.ContextOf(s.hart), va, M.Instruction);
    GigaWalks(s.tlb, I.ContextOf(s.hart), UNMARKED, va, M.Instruction);
    assert va / 4096 == 0x3_FFFF && M.Slot(0x3_FFFF) == 63;
  }

  /** A load of the second entry reads what memory holds there. */
  lemma GigaLoads(s: I.State, second: u64)
    requires GigaHart(s.hart) && s.mem == GigaMem(second) && !s.tlb[1].valid
    ensures var t := I.Translate(s, 0x1008, M.Load); t.res == Ok(0x1008) && t.s.hart == s.hart && t.s.mem == s.mem
    ensures Read(GigaMem(second), 0x1008, W64) == Ok(second)
  {
    hide M.WalkAndFill, Unpack, M.Levels, M.Root, M.Asid, M.VpnFull, M.PhysAddr, M.Permitted, M.PtePerm, M.Canonical;
    GigaWalk(second, 0x1008);
    GigaWalks(s.tlb, I.ContextOf(s.hart), second, 0x1008, M.Load);
    assert M.Slot(1) == 1;
  }

  const BORDER: u64 := 0x4000_0000

  lemma BorderWalk()
    ensures M.FindLeaf(GigaMem(UNMARKED), 1, BORDER, 2) == M.Leaf(0x1008, Unpack(UNMARKED), 2)
    ensures M.Canonical(3, BORDER) && M.VpnFull(3, BORDER) == 0x4_0000 && M.Slot(0x4_0000) == 0
  {
    GigaEntries();
    assert M.Vpn(BORDER, 2) == 1;
    assert M.PteAddr(1, BORDER, 2) == 0x1008;
    assert Read(GigaMem(UNMARKED), 0x1008, W64) == Ok(UNMARKED);
    hide M.PteAddr, M.Vpn, Unpack;
  }

  lemma BorderLeaf(c: M.Context)
    requires c.mode == Supervisor
    ensures var p := Unpack(UNMARKED);
            && M.Permitted(c.mode, c.mstatus, M.PtePerm(p), M.Instruction) && M.SuperpageAligned(p, 2)
            && M.Marked(p, M.Instruction) != p && Pack(M.Marked(p, M.Instruction)) == MARKED
            && M.ResultPpn(p, 2, BORDER) == 0x4_0000 && M.PhysAddr(0x4_0000, BORDER) == BORDER
  {
    GigaEntries();
    assert M.PtePpn(Unpack(UNMARKED)) == 0x4_0000;
    assert BORDER / 4096 == 0x4_0000;
    hide Unpack, Pack, M.PtePpn;
  }

  lemma BorderWrites()
    ensures Write(GigaMem(UNMARKED), 0x1008, W64, MARKED) == Ok(GigaMem(MARKED))
  {
    assert GigaMem(UNMARKED).words[0x201 := MARKED] == GigaMem(MARKED).words;
  }

  /** Fetching across the border marks the second entry. */
  lemma BorderMarks(s: I.State)
    requires GigaHart(s.hart) && s.mem == GigaMem(UNMARKED) && GigaTlb(s.tlb)
    ensures var t := I.Translate(s, BORDER, M.Instruction);
            t.res == Ok(BORDER) && t.s.hart == s.hart && t.s.mem == GigaMem(MARKED) && !t.s.tlb[1].valid
  {
    hide M.FindLeaf, Unpack, Pack, GigaMem, M.Levels, M.Root, M.Asid, M.VpnFull, M.ResultPpn, M.PhysAddr, M.Permitted,
      M.Canonical, M.SuperpageAligned, M.PtePerm, M.Marked, M.Slot, Write;
    GigaWalk(UNMARKED, 0);
    BorderWalk();
    BorderLeaf(I.ContextOf(s.hart));
    BorderWrites();
  }

  const LAST_WORD: u64 := 0x006F_0081_3083_0000

  lemma GigaHalves()
    ensures Extract(LAST_WORD, LAST, W16) == 0x3083 && Extract(LAST_WORD, LAST + 2, W16) == 0x81
    ensures Extract(LAST_WORD, LAST + 4, W16) == 0x6F && Extract(0, BORDER, W16) == 0
  {
  }

  lemma GigaCode(second: u64)
    ensures Read(GigaMem(second), LAST, W16) == Ok(0x3083) && Read(GigaMem(second), LAST + 2, W16) == Ok(0x81)
    ensures Read(GigaMem(second), LAST + 4, W16) == Ok(0x6F) && Read(GigaMem(second), BORDER, W16) == Ok(0)
  {
    hide Extract;
    GigaHalves();
  }

  lemma GigaDecodes()
    ensures D.Decode(LOAD) == Ok(D.Load(1, 2, 8, 3)) && D.Decode(SPIN) == Ok(D.Jal(0, 0))
  {
  }

  lemma GigaOps()
    ensures Micro.Transcode(D.Load(1, 2, 8, 3), 0, 4) == Micro.Ld(1, 2, 8, 0)
            && !Micro.IsTerminator(Micro.Ld(1, 2, 8, 0))
    ensures Micro.Transcode(D.Jal(0, 0), 4, 4) == Micro.Jal(0, 0, 4, 4) && Micro.IsTerminator(Micro.Jal(0, 0, 4, 4))
  {
  }

  /** The load is fetched from the first page, on both sides. */
  lemma LoadFetched(s: I.State)
    requires GigaHart(s.hart) && s.mem == GigaMem(UNMARKED) && GigaTlb(s.tlb)
    ensures var f := K.FetchInsn(s, LAST);
            f.Fetched? && f.insn == LOAD && f.len == 4 && f.s.hart == s.hart && f.s.mem == s.mem && GigaTlb(f.s.tlb)
    ensures s.hart.pc == LAST ==> I.FetchAndExpand(s) == K.FetchInsn(s, LAST)
  {
    hide I.Translate, Read, GigaMem, D.ExpandCompressed, GigaTlb;
    GigaCode(UNMARKED);
    GigaFetches(s, LAST);
    GigaFetches(I.Translate(s, LAST, M.Instruction).s, LAST + 2);
  }

  /** The jump is fetched across the border, which marks the second entry. */
  lemma JumpFetched(s: I.State)
    requires GigaHart(s.hart) && s.mem == GigaMem(UNMARKED) && GigaTlb(s.tlb)
    ensures var f := K.FetchInsn(s, LAST + 4);
            f.Fetched? && f.insn == SPIN && f.len == 4 && f.s.hart == s.hart && f.s.mem == GigaMem(MARKED)
                && !f.s.tlb[1].valid
  {
    hide I.Translate, Read, GigaMem, D.ExpandCompressed, GigaTlb;
    GigaCode(UNMARKED);
    GigaCode(MARKED);
    GigaFetches(s, LAST + 4);
    BorderMarks(I.Translate(s, LAST + 4, M.Instruction).s);
  }

  const GIGA_FIRST := K.Block(LAST, LAST, [Micro.Ld(1, 2, 8, 0)], 4, None, 0)
  const GIGA_BLOCK := K.Block(LAST, LAST, [Micro.Ld(1, 2, 8, 0), Micro.Jal(0, 0, 4, 4)], 8, Some(LAST + 4), 0)

  lemma GigaAdvances()
    ensures K.Advance(K.Block(LAST, LAST, [], 0, None, 0), LOAD, 4, LAST, 0) == K.More(GIGA_FIRST, LAST + 4)
    ensures K.Advance(GIGA_FIRST, SPIN, 4, LAST + 4, 4) == K.Done(GIGA_BLOCK)
  {
    hide D.Decode, Micro.Transcode, Micro.IsTerminator;
    GigaDecodes();
    GigaOps();
    assert GIGA_FIRST.ops + [Micro.Jal(0, 0, 4, 4)] == GIGA_BLOCK.ops;
  }

  lemma GigaCompiles(s: I.State)
    requires GigaHart(s.hart) && s.mem == GigaMem(UNMARKED) && GigaTlb(s.tlb)
    ensures var r := K.Compile(s, LAST, 0);
            r.Compiled? && r.block == GIGA_BLOCK && r.s.hart == s.hart && r.s.mem == GigaMem(MARKED)
                && !r.s.tlb[1].valid
  {
    hide K.FetchInsn, I.Translate, K.Advance, GigaMem, GigaTlb;
    GigaFetches(s, LAST);
    var t := I.Translate(s, LAST, M.Instruction).s;
    LoadFetched(t);
    var f := K.FetchInsn(t, LAST);
    JumpFetched(f.s);
    var g := K.FetchInsn(f.s, LAST + 4);
    GigaAdvances();
    assert K.CompileFrom(f.s, GIGA_FIRST, LAST + 4, 4) == K.Compiled(g.s, GIGA_BLOCK);
  }

  lemma GigaLoadRuns(s: I.State, second: u64)
    requires GigaHart(s.hart) && s.mem == GigaMem(second) && !s.tlb[1].valid
    ensures var o := K.MicroStep(GIGA_BLOCK.ops[0], LAST, s); o.Next? && o.s.hart.regs[1] == second
  {
    hide I.Translate, Read, GigaMem, K.AluWrite, K.TransferOp;
    GigaLoads(s, second);
    assert WrappingAdd(0x1000, ToU64(8)) == 0x1008;
    assert K.AccessOp(GIGA_BLOCK.ops[0], LAST, s) == K.LoadOp(s, 1, 2, 8, W64, false, LAST);
  }

  /** What the load puts into x1. */
  lemma GigaBlockRuns(s: I.State, second: u64)
    requires GigaHart(s.hart) && s.mem == GigaMem(second) && !s.tlb[1].valid
    ensures var o := K.RunBlock(GIGA_BLOCK, s); o.Continue? && o.s.hart.regs[1] == second
  {
    hide I.Translate, GigaMem, K.MicroStep, Micro.KindOf;
    GigaLoadRuns(s, second);
    var o := K.MicroStep(GIGA_BLOCK.ops[0], LAST, s);
    GigaJumps(o.s);
    assert K.RunOps(GIGA_BLOCK, 1, o.s) == K.MicroStep(GIGA_BLOCK.ops[1], LAST, o.s);
  }

  lemma GigaJumps(s: I.State)
    ensures var o := K.MicroStep(GIGA_BLOCK.ops[1], LAST, s); o.Continue? && o.s == s
  {
    hide K.AluWrite, K.AccessOp, WrappingAdd, ToU64;
    assert K.TransferOp(GIGA_BLOCK.ops[1], ToU64(LAST + 4), s).s == s;
  }

  lemma GigaInterpreted(s: I.State)
    requires GigaHart(s.hart) && s.mem == GigaMem(UNMARKED) && GigaTlb(s.tlb) && s.hart.pc == LAST
    ensures I.StepSingle(s).err == None && I.StepSingle(s).next.hart.regs[1] == UNMARKED
  {
    hide I.FetchAndExpand, K.FetchInsn, D.Decode, I.Translate, Read, GigaMem;
    GigaDecodes();
    LoadFetched(s);
    var f := I.FetchAndExpand(s);
    GigaLoads(f.s, UNMARKED);
    assert WrappingAdd(0x1000, ToU64(8)) == 0x1008;
    assert I.StepSingle(s) == I.ExecLoad(f.s, 1, 2, 8, 3, LOAD, ToU64(LAST + 4));
  }

  /** A block that loads a page-table entry the compiler has marked on its way, for the last instruction of
      the block, reads the mark; the interpreter, which has not fetched that instruction yet, does not. */
  lemma MarkSeen()
    ensures var s := GigaStart();
            var r := K.Compile(s, s.hart.pc, 0);
            && r.Compiled? && K.RunBlock(r.block, r.s).s.hart.regs[1] == MARKED
            && I.StepSingle(s).err == None && I.StepSingle(s).next.hart.regs[1] == UNMARKED
            && P.Markable(Unpack(s.mem.At(0x201)))
  {
    hide K.Compile, K.RunBlock, I.StepSingle, Unpack;
    var s := GigaStart();
    GigaEntries();
    assert GigaTlb(s.tlb) && GigaHart(s.hart);
    GigaCompiles(s);
    GigaBlockRuns(K.Compile(s, LAST, 0).s, MARKED);
    GigaInterpreted(s);
  }

  // ---- An endless good run ---------------------------------------------------------------------------------------

  /** The encoding of a jump to itself. */
  const SPIN: u32 := 0x6F

  lemma SpinFetched(s: I.State)
    requires F.SpaceOf(I.ContextOf(s.hart)) == F.Identity && s.hart.pc % 4 == 0
    requires Read(s.mem, s.hart.pc, W32) == Ok(SPIN)
    ensures I.FetchAndExpand(s) == I.Fetched(s, SPIN, 4)
    ensures var c := I.ContextOf(s.hart);
            && F.PlainFetch(s.mem, c, s.hart.pc) == F.Insn(SPIN, 4)
            && F.FetchIn(iset{Word(s.hart.pc)}, s.mem, c, s.hart.pc)
            && P.Resolve(s.mem, c, s.hart.pc, M.Instruction).Ok?
  {
    hide I.Translate, P.Resolve, Read, I.FetchHalves, F.PlainFetch, D.ExpandCompressed, I.ContextOf, F.SpaceOf,
      WrappingAdd, I.FetchAndExpand;
    var pc := s.hart.pc;
    F.SamePageNext(pc);
    F.HalfAddresses(pc);
    IdentityFetches(s, pc, SPIN);
    IdentityResolves(s, pc);
    IdentityResolves(s, pc + 2);
    F.AlignedIsPlain(s.mem, I.ContextOf(s.hart), pc);
  }

  lemma IdentityResolves(s: I.State, va: u64)
    requires F.SpaceOf(I.ContextOf(s.hart)) == F.Identity
    ensures P.Resolve(s.mem, I.ContextOf(s.hart), va, M.Instruction) == Ok(va)
  {
    hide M.Levels, M.FindLeaf, M.Canonical;
  }

  lemma SpinDecodes()
    ensures D.Decode(SPIN) == Ok(D.Jal(0, 0))
  {
  }

  lemma SpinStays(s: I.State)
    requires s.hart.pc % 2 == 0 && I.FetchAndExpand(s) == I.Fetched(s, SPIN, 4)
    ensures I.StepSingle(s) == I.Step(s, None)
  {
    hide I.FetchAndExpand, D.Decode, T.HandleTrap;
    SpinDecodes();
    assert WrappingAdd(s.hart.pc, ToU64(0)) == s.hart.pc;
    assert I.Execute(D.Jal(0, 0), SPIN, 4, s) == I.Step(s, None);
  }

  lemma SpinReads(code: iset<int>, m: Mem, c: M.Context, pc: u64)
    requires F.PlainFetch(m, c, pc) == F.Insn(SPIN, 4) && F.FetchIn(code, m, c, pc)
    ensures C.ReadsIn(code, m, c, pc)
  {
    hide F.PlainFetch, F.FetchIn, D.Decode;
    SpinDecodes();
  }

  lemma SpinKept(s: I.State)
    requires F.SpaceOf(I.ContextOf(s.hart)) == F.Identity && s.hart.pc % 4 == 0
    requires Read(s.mem, s.hart.pc, W32) == Ok(SPIN)
    ensures KeptAt(NO_TABLES, iset{Word(s.hart.pc)}, _ => F.Identity, s)
  {
    hide I.FetchAndExpand, F.PlainFetch, F.FetchIn, C.ReadsIn, I.ContextOf, Read, P.Resolve, D.Decode;
    SpinDecodes();
    SpinFetched(s);
    SpinReads(iset{Word(s.hart.pc)}, s.mem, I.ContextOf(s.hart), s.hart.pc);
  }

  lemma {:induction false} StandsStill(s: I.State, n: nat)
    requires I.StepSingle(s).next == s
    ensures C.After(s, n) == s
    decreases n
  {
    hide I.StepSingle;
    if n > 0 {
      StandsStill(s, n - 1);
    }
  }

  /** The hypotheses of the run theorems can hold for ever: a jump to itself is good at every step. */
  lemma SpinIsGood(s: I.State, n: nat)
    requires F.SpaceOf(I.ContextOf(s.hart)) == F.Identity && s.hart.pc % 4 == 0
    requires Read(s.mem, s.hart.pc, W32) == Ok(SPIN)
    ensures GoodFor(NO_TABLES, iset{}, s, n)
  {
    hide I.FetchAndExpand, I.StepSingle, F.PlainFetch, F.FetchIn, F.SpaceOf, I.ContextOf, Read, KeptAt, C.After, F.Fit,
      GoodFor, F.Tabled;
    var code := iset{Word(s.hart.pc)};
    SpinFetched(s);
    F.EvenAddress(s.hart.pc);
    SpinStays(s);
    F.SaneWithoutTables(s);
    forall k | 0 <= k < n
      ensures KeptAt(NO_TABLES, code, _ => F.Identity, C.After(s, k))
    {
      StandsStill(s, k);
      SpinKept(s);
    }
    HomesAreGood(NO_TABLES, code, _ => F.Identity, s, n);
  }
}
