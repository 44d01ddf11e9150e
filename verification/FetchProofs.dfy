/** Instruction fetch: the compiler's and the interpreter's fetch both return what a plain
    halfword-by-halfword fetch through the page tables returns. */
module FetchProofs {
  import opened Base
  import opened Memory
  import M = Mmu
  import P = MmuProofs
  import D = Decoder
  import opened HartState
  import I = Interpreter
  import K = Block

  // ---- Translation for a hart -----------------------------------------------------------------------

  /** What instruction addresses mean depends on this much of the context. */
  datatype Space = Identity | Paged(mode: Mode, levels: nat, root: M.Ppn)

  function SpaceOf(c: M.Context): Space {
    if c.mode == Machine || M.Levels(c.satp) == 0 then Identity else Paged(c.mode, M.Levels(c.satp), M.Root(c.satp))
  }

  /** The TLB agrees with the tables satp points to, in whatever mode, if `pt` covers them. */
  ghost predicate Fit(pt: Tables, s: I.State) {
    var satp := s.hart.csrs[CSR_SATP];
    P.TablesIn(pt, s.mem, satp) ==> P.Coherent(s.tlb, s.mem, satp)
  }

  /** When addresses are translated, `pt` covers the tables. */
  ghost predicate Tabled(pt: Tables, s: I.State) {
    SpaceOf(I.ContextOf(s.hart)).Paged? ==> P.TablesIn(pt, s.mem, s.hart.csrs[CSR_SATP])
  }

  ghost predicate Sane(pt: Tables, s: I.State) {
    Fit(pt, s) && Tabled(pt, s)
  }

  /** `t` is `s` after some translations: same hart, only page-table marks and the TLB may differ. */
  ghost predicate OnlyMarked(pt: Tables, s: I.State, t: I.State) {
    t.hart == s.hart && Agree(pt, Outside(pt), s.mem, t.mem) && Sane(pt, t)
  }

  /** Without translation no tables need to be covered. */
  lemma SaneWithoutTables(s: I.State)
    requires SpaceOf(I.ContextOf(s.hart)) == Identity
    ensures Sane(NO_TABLES, s)
  {
    var satp := s.hart.csrs[CSR_SATP];
    if M.Levels(satp) > 0 {
      assert !P.WalkIn(NO_TABLES, s.mem, satp, 0);
    }
    hide P.StaysIn;
  }

  /** Contexts that mean the same for instruction addresses have the same tables. */
  lemma TabledMoves(pt: Tables, s: I.State, t: I.State)
    requires Tabled(pt, s) && SpaceOf(I.ContextOf(s.hart)) == SpaceOf(I.ContextOf(t.hart))
    ensures Tabled(pt, t.(mem := s.mem))
  {
    var c, d := I.ContextOf(s.hart), I.ContextOf(t.hart);
    if SpaceOf(c).Paged? {
      forall addr: u64
        ensures P.WalkIn(pt, s.mem, d.satp, addr)
      {
        assert P.WalkIn(pt, s.mem, c.satp, addr);
      }
      hide P.StaysIn, M.Levels, M.Root, P.Settled;
    }
  }

  /** What `pt` covers and the TLB agrees with stays so when only kept words and marks change. */
  lemma SaneAgrees(pt: Tables, keep: iset<int>, s: I.State, n: Mem)
    requires Agree(pt, keep, s.mem, n)
    ensures Fit(pt, s) ==> Fit(pt, s.(mem := n))
    ensures Tabled(pt, s) ==> Tabled(pt, s.(mem := n))
  {
    hide Agree, P.TablesIn, P.Coherent, SpaceOf;
    var satp := s.hart.csrs[CSR_SATP];
    AgreeSymmetric(pt, keep, s.mem, n);
    if P.TablesIn(pt, n, satp) {
      P.TablesAgree(pt, keep, n, s.mem, satp);
      if P.Coherent(s.tlb, s.mem, satp) {
        P.CoherentAgrees(pt, keep, s.tlb, s.mem, n, satp);
      }
    }
    if P.TablesIn(pt, s.mem, satp) {
      P.TablesAgree(pt, keep, s.mem, n, satp);
    }
  }

  lemma OnlyMarkedTransitive(pt: Tables, s: I.State, t: I.State, u: I.State)
    requires OnlyMarked(pt, s, t) && OnlyMarked(pt, t, u)
    ensures OnlyMarked(pt, s, u)
  {
    AgreeTransitive(pt, Outside(pt), s.mem, t.mem, u.mem);
    hide Agree, Sane;
  }

  lemma TranslateOk(pt: Tables, s: I.State, addr: u64, access: M.Access)
    requires Sane(pt, s)
    ensures var t := I.Translate(s, addr, access);
            t.res == P.Resolve(s.mem, I.ContextOf(s.hart), addr, access) && OnlyMarked(pt, s, t.s)
  {
    var c := I.ContextOf(s.hart);
    if SpaceOf(c).Paged? {
      P.TranslateSound(pt, s.tlb, s.mem, c, addr, access);
      hide M.Translate, P.Resolve, Agree, P.Coherent, P.TablesIn;
    } else {
      AgreeRefl(pt, Outside(pt), s.mem);
    }
  }

  /** Resolution is the same in memories that agree on the page tables. */
  lemma ResolveSame(pt: Tables, keep: iset<int>, s: I.State, n: Mem, addr: u64, access: M.Access)
    requires Sane(pt, s) && Agree(pt, keep, s.mem, n)
    ensures P.Resolve(n, I.ContextOf(s.hart), addr, access) == P.Resolve(s.mem, I.ContextOf(s.hart), addr, access)
  {
    var c := I.ContextOf(s.hart);
    if SpaceOf(c).Paged? {
      P.ResolveAgrees(pt, keep, s.mem, n, c, addr, access);
    }
  }

  /** Translation keeps the offset inside the page, and a page stays together. */
  lemma ResolvePage(m: Mem, c: M.Context, addr: u64, other: u64, access: M.Access)
    requires addr / 4096 == other / 4096
    ensures P.Resolve(m, c, addr, access).Ok? <==> P.Resolve(m, c, other, access).Ok?
    ensures P.Resolve(m, c, addr, access).Ok? ==>
              && P.Resolve(m, c, addr, access).value % 4096 == addr % 4096
              && P.Resolve(m, c, other, access).value - other == P.Resolve(m, c, addr, access).value - addr
  {
    if SpaceOf(c).Paged? {
      var levels := M.Levels(c.satp);
      P.FindLeafSamePage(m, M.Root(c.satp), addr, other, levels - 1);
      assert M.Canonical(levels, addr) == M.Canonical(levels, other);
      var f := M.FindLeaf(m, M.Root(c.satp), addr, levels - 1);
      if f.Leaf? {
        assert M.ResultPpn(f.pte, f.level, addr) == M.ResultPpn(f.pte, f.level, other);
        PageParts(M.ResultPpn(f.pte, f.level, addr), addr, other);
      }
      hide M.Canonical, M.FindLeaf, M.ResultPpn, M.PhysAddr;
    }
  }

  lemma PageParts(ppn: M.Ppn, addr: u64, other: u64)
    requires addr / 4096 == other / 4096
    ensures M.PhysAddr(ppn, addr) % 4096 == addr % 4096
    ensures M.PhysAddr(ppn, other) - other == M.PhysAddr(ppn, addr) - addr
  {
  }

  // ---- The reference fetch ----------------------------------------------------------------------------

  datatype Insn = Insn(bits: u32, len: nat) | NoInsn(trap: Trap)

  function ExpandedInsn(half: D.u16): Insn {
    match D.ExpandCompressed(half)
    case Ok(bits) => Insn(bits, 2)
    case Err(t) => NoInsn(t)
  }

  /** Halfword by halfword, straight from the tables and memory. */
  function PlainFetch(m: Mem, c: M.Context, pc: u64): Insn {
    if pc % 2 != 0 then NoInsn(InstructionAddressMisaligned(pc))
    else
      var low := P.Resolve(m, c, pc, M.Instruction);
      if low.Err? then NoInsn(low.trap)
      else
        var half := Read(m, low.value, W16);
        if half.Err? then NoInsn(I.FetchTrap(half.trap, pc))
        else if half.value % 4 != 3 then ExpandedInsn(half.value)
        else
          var high := P.Resolve(m, c, WrappingAdd(pc, 2), M.Instruction);
          if high.Err? then NoInsn(high.trap)
          else
            var rest := Read(m, high.value, W16);
            if rest.Err? then NoInsn(I.FetchTrap(rest.trap, pc))
            else Insn(half.value + rest.value * 0x1_0000, 4)
  }

  /** If `va` is executable its bytes lie in `code`. */
  ghost predicate CodeAt(code: iset<int>, m: Mem, c: M.Context, va: u64) {
    P.Resolve(m, c, va, M.Instruction).Ok? ==> Word(P.Resolve(m, c, va, M.Instruction).value) in code
  }

  ghost predicate FetchIn(code: iset<int>, m: Mem, c: M.Context, pc: u64) {
    CodeAt(code, m, c, pc) && CodeAt(code, m, c, WrappingAdd(pc, 2))
  }

  lemma FetchInMore(code: iset<int>, more: iset<int>, m: Mem, c: M.Context, pc: u64)
    requires FetchIn(code, m, c, pc) && code <= more
    ensures FetchIn(more, m, c, pc)
  {
    hide P.Resolve;
  }

  ghost predicate Disjoint(pt: Tables, code: iset<int>) {
    forall w :: w in code ==> w !in pt.loose
  }

  ghost predicate SameInsn(f: I.Fetch, p: Insn) {
    match f
    case Fetched(_, bits, len) => p == Insn(bits, len)
    case NotFetched(_, t) => p == NoInsn(t)
  }

  /** A whole word is its two halfwords. */
  lemma WordIsHalves(m: Mem, a: u64)
    requires a % 4 == 0 && Read(m, a, W32).Ok?
    ensures Read(m, a, W16) == Ok(Read(m, a, W32).value % 0x1_0000)
    ensures Read(m, a + 2, W16) == Ok(Read(m, a, W32).value / 0x1_0000)
  {
    HalfAddresses(a);
    LowHalves(m.At(Word(a)));
    HighHalves(m.At(Word(a)));
  }

  lemma HalfAddresses(a: u64)
    requires a % 4 == 0
    ensures a % 2 == 0 && (a + 2) % 2 == 0 && (a + 2) / 8 == a / 8
    ensures (a % 8 == 0 && (a + 2) % 8 == 2) || (a % 8 == 4 && (a + 2) % 8 == 6)
  {
    var q := a / 4;
    assert a == 4 * q;
    if q % 2 == 0 {
      assert a == 8 * (q / 2);
    } else {
      assert a == 8 * (q / 2) + 4;
    }
  }

  lemma LowHalves(x: u64)
    ensures x % 0x1_0000_0000 % 0x1_0000 == x % 0x1_0000
    ensures x % 0x1_0000_0000 / 0x1_0000 == x / 0x1_0000 % 0x1_0000
  {
    var high, low := x / 0x1_0000_0000, x % 0x1_0000_0000;
    assert x == 0x1_0000 * (0x1_0000 * high + low / 0x1_0000) + low % 0x1_0000;
    assert x / 0x1_0000 == 0x1_0000 * high + low / 0x1_0000;
  }

  lemma HighHalves(x: u64)
    ensures x / 0x1_0000_0000 % 0x1_0000_0000 == x / 0x1_0000_0000
    ensures x / 0x1_0000_0000 / 0x1_0000 == x / 0x1_0000_0000_0000 % 0x1_0000
  {
    var high, low := x / 0x1_0000_0000, x % 0x1_0000_0000;
    assert x == 0x1_0000_0000_0000 * (high / 0x1_0000) + (0x1_0000_0000 * (high % 0x1_0000) + low);
    assert 0x1_0000_0000 * (high % 0x1_0000) + low < 0x1_0000_0000_0000;
  }

  /** Reads in `code` survive page-table marking. */
  lemma CodeRead(pt: Tables, code: iset<int>, m: Mem, n: Mem, a: u64, w: Width)
    requires Agree(pt, Outside(pt), m, n) && Disjoint(pt, code) && Word(a) in code
    ensures Read(n, a, w) == Read(m, a, w)
  {
  }

  /** At a word-aligned address the second halfword is translated to the next physical halfword. */
  lemma AlignedHigh(m: Mem, c: M.Context, pc: u64)
    requires pc % 4 == 0 && P.Resolve(m, c, pc, M.Instruction).Ok?
    ensures P.Resolve(m, c, pc, M.Instruction).value % 4 == 0
    ensures WrappingAdd(pc, 2) == pc + 2
    ensures P.Resolve(m, c, pc + 2, M.Instruction) == Ok(P.Resolve(m, c, pc, M.Instruction).value + 2)
  {
    hide P.Resolve;
    SamePageNext(pc);
    ResolvePage(m, c, pc, pc + 2, M.Instruction);
    PageKeepsAlignment(pc, P.Resolve(m, c, pc, M.Instruction).value);
  }

  lemma PageKeepsAlignment(pc: u64, pa: u64)
    requires pc % 4 == 0 && pa % 4096 == pc % 4096
    ensures pa % 4 == 0
  {
    assert pa - pc == 4 * (1024 * (pa / 4096 - pc / 4096));
  }

  lemma SamePageNext(pc: u64)
    requires pc % 4 == 0
    ensures pc + 2 < TWO_64 && pc / 4096 == (pc + 2) / 4096
    ensures WrappingAdd(pc, 2) == pc + 2
  {
    var q, k := pc / 4096, pc / 4;
    assert pc == 4 * k;
    var r := k - 1024 * q;
    assert pc == 4096 * q + 4 * r && 0 <= r < 1024;
    assert pc + 2 == 4096 * q + (4 * r + 2);
  }

  /** The aligned word fetch and the halfword fetch are the same fetch. */
  lemma AlignedIsPlain(m: Mem, c: M.Context, pc: u64)
    requires pc % 4 == 0 && P.Resolve(m, c, pc, M.Instruction).Ok?
    requires Read(m, P.Resolve(m, c, pc, M.Instruction).value, W32).Ok?
    ensures var word := Read(m, P.Resolve(m, c, pc, M.Instruction).value, W32).value;
            PlainFetch(m, c, pc) == if word % 4 != 3 then ExpandedInsn(word % 0x1_0000) else Insn(word, 4)
  {
    hide P.Resolve, Read, ExpandedInsn, WrappingAdd;
    var pa := P.Resolve(m, c, pc, M.Instruction).value;
    AlignedHigh(m, c, pc);
    WordIsHalves(m, pa);
    SamePageNext(pc);
    var word := Read(m, pa, W32).value;
    LowBits(word);
    EvenAddress(pc);
  }

  lemma LowBits(word: u32)
    ensures word % 0x1_0000 % 4 == word % 4
    ensures word == word % 0x1_0000 + word / 0x1_0000 * 0x1_0000
  {
    assert word == 4 * (0x4000 * (word / 0x1_0000)) + word % 0x1_0000;
  }

  lemma EvenAddress(pc: u64)
    requires pc % 4 == 0
    ensures pc % 2 == 0
  {
    var k := pc / 4;
    assert pc == 4 * k;
    assert pc == 2 * (2 * k);
  }

  /** The interpreter's halfword path from a state reached by marking. */
  lemma HalvesFetch(pt: Tables, code: iset<int>, s: I.State, pc: u64)
    requires Sane(pt, s) && Disjoint(pt, code) && pc % 2 == 0
    requires FetchIn(code, s.mem, I.ContextOf(s.hart), pc)
    ensures var f := I.FetchHalves(s, pc);
            SameInsn(f, PlainFetch(s.mem, I.ContextOf(s.hart), pc)) && OnlyMarked(pt, s, f.s)
  {
    hide P.Resolve, Agree, Sane, Read, I.Translate, D.ExpandCompressed, Disjoint;
    var low := I.Translate(s, pc, M.Instruction);
    TranslateOk(pt, s, pc, M.Instruction);
    if low.res.Ok? {
      CodeRead(pt, code, s.mem, low.s.mem, low.res.value, W16);
      ResolveSame(pt, Outside(pt), s, low.s.mem, WrappingAdd(pc, 2), M.Instruction);
      TranslateOk(pt, low.s, WrappingAdd(pc, 2), M.Instruction);
      var high := I.Translate(low.s, WrappingAdd(pc, 2), M.Instruction);
      OnlyMarkedTransitive(pt, s, low.s, high.s);
      if high.res.Ok? {
        CodeRead(pt, code, s.mem, high.s.mem, high.res.value, W16);
      }
    }
  }

  /** The interpreter fetches what the plain fetch yields. */
  lemma InterpreterFetch(pt: Tables, code: iset<int>, s: I.State)
    requires Sane(pt, s) && Disjoint(pt, code)
    requires FetchIn(code, s.mem, I.ContextOf(s.hart), s.hart.pc)
    ensures var f := I.FetchAndExpand(s);
            SameInsn(f, PlainFetch(s.mem, I.ContextOf(s.hart), s.hart.pc)) && OnlyMarked(pt, s, f.s)
  {
    hide P.Resolve, Agree, Sane, Read, I.Translate, D.ExpandCompressed, I.FetchHalves;
    var pc, c := s.hart.pc, I.ContextOf(s.hart);
    AgreeRefl(pt, Outside(pt), s.mem);
    if pc % 4 == 0 {
      var at := I.Translate(s, pc, M.Instruction);
      TranslateOk(pt, s, pc, M.Instruction);
      if at.res.Ok? {
        CodeRead(pt, code, s.mem, at.s.mem, at.res.value, W32);
        if Read(s.mem, at.res.value, W32).Ok? {
          AlignedIsPlain(s.mem, c, pc);
        } else {
          MarkedFetchIn(pt, code, s, at.s, pc);
          HalvesFetch(pt, code, at.s, pc);
          OnlyMarkedTransitive(pt, s, at.s, I.FetchHalves(at.s, pc).s);
        }
      }
    } else if pc % 2 == 0 {
      HalvesFetch(pt, code, s, pc);
    }
  }

  /** Marking changes neither what the plain fetch reads nor where it reads it. */
  lemma MarkedFetchIn(pt: Tables, code: iset<int>, s: I.State, t: I.State, pc: u64)
    requires Sane(pt, s) && Disjoint(pt, code) && OnlyMarked(pt, s, t)
    requires FetchIn(code, s.mem, I.ContextOf(s.hart), pc)
    ensures FetchIn(code, t.mem, I.ContextOf(t.hart), pc)
    ensures PlainFetch(t.mem, I.ContextOf(t.hart), pc) == PlainFetch(s.mem, I.ContextOf(s.hart), pc)
  {
    KeptFetch(pt, code, s, t.mem, pc);
  }

  /** The plain fetch depends only on page tables (up to marks) and code words. */
  lemma KeptFetch(pt: Tables, code: iset<int>, s: I.State, n: Mem, pc: u64)
    requires Sane(pt, s) && Disjoint(pt, code)
    requires Agree(pt, code, s.mem, n) || Agree(pt, Outside(pt), s.mem, n)
    requires FetchIn(code, s.mem, I.ContextOf(s.hart), pc)
    ensures FetchIn(code, n, I.ContextOf(s.hart), pc)
    ensures PlainFetch(n, I.ContextOf(s.hart), pc) == PlainFetch(s.mem, I.ContextOf(s.hart), pc)
  {
    hide P.Resolve, Agree, Sane, Read;
    if Agree(pt, Outside(pt), s.mem, n) {
      forall w | w in code
        ensures w in Outside(pt)
      {
        assert w !in pt.loose;
      }
      AgreeWeaken(pt, Outside(pt), code, s.mem, n);
    }
    ResolveSame(pt, code, s, n, pc, M.Instruction);
    ResolveSame(pt, code, s, n, WrappingAdd(pc, 2), M.Instruction);
    var c := I.ContextOf(s.hart);
    var low, high := P.Resolve(s.mem, c, pc, M.Instruction), P.Resolve(s.mem, c, WrappingAdd(pc, 2), M.Instruction);
    if low.Ok? {
      ReadAgrees(pt, code, s.mem, n, low.value, W16);
    }
    if high.Ok? {
      ReadAgrees(pt, code, s.mem, n, high.value, W16);
    }
  }

  /** The compiler fetches what the plain fetch yields. */
  lemma CompilerFetch(pt: Tables, code: iset<int>, s: I.State, pc: u64)
    requires Sane(pt, s) && Disjoint(pt, code)
    requires FetchIn(code, s.mem, I.ContextOf(s.hart), pc)
    ensures var f := K.FetchInsn(s, pc);
            SameInsn(f, PlainFetch(s.mem, I.ContextOf(s.hart), pc)) && OnlyMarked(pt, s, f.s)
  {
    hide P.Resolve, Agree, Sane, Read, I.Translate, D.ExpandCompressed;
    var c := I.ContextOf(s.hart);
    AgreeRefl(pt, Outside(pt), s.mem);
    if pc % 2 == 0 {
      var at := I.Translate(s, pc, M.Instruction);
      TranslateOk(pt, s, pc, M.Instruction);
      if at.res.Ok? {
        CodeRead(pt, code, s.mem, at.s.mem, at.res.value, W32);
        if pc % 4 == 0 && Read(s.mem, at.res.value, W32).Ok? {
          AlignedIsPlain(s.mem, c, pc);
        } else {
          CompilerHalves(pt, code, s, pc);
        }
      }
    }
  }

  lemma CompilerHalves(pt: Tables, code: iset<int>, s: I.State, pc: u64)
    requires Sane(pt, s) && Disjoint(pt, code) && pc % 2 == 0
    requires FetchIn(code, s.mem, I.ContextOf(s.hart), pc)
    requires I.Translate(s, pc, M.Instruction).res.Ok?
    requires pc % 4 != 0 || Read(I.Translate(s, pc, M.Instruction).s.mem, I.Translate(s, pc, M.Instruction).res.value,
                                 W32).Err?
    ensures var f := K.FetchInsn(s, pc);
            SameInsn(f, PlainFetch(s.mem, I.ContextOf(s.hart), pc)) && OnlyMarked(pt, s, f.s)
  {
    assert K.FetchInsn(s, pc) == I.FetchHalves(s, pc) by {
      hide I.Translate, Read, D.ExpandCompressed;
    }
    HalvesFetch(pt, code, s, pc);
    hide *;
  }

  /** The two fetches agree: same instruction word and length, or same trap, whatever memory holds and
      wherever the pc points, and neither leaves more than table marks behind. */
  lemma FetchAgreement(pt: Tables, code: iset<int>, s: I.State)
    requires Sane(pt, s) && Disjoint(pt, code)
    requires FetchIn(code, s.mem, I.ContextOf(s.hart), s.hart.pc)
    ensures var f, g := K.FetchInsn(s, s.hart.pc), I.FetchAndExpand(s);
            && (f.Fetched? <==> g.Fetched?)
            && (f.Fetched? ==> f.insn == g.insn && f.len == g.len)
            && (f.NotFetched? ==> f.trap == g.trap)
            && OnlyMarked(pt, s, f.s) && OnlyMarked(pt, s, g.s)
  {
    hide Sane, Disjoint, FetchIn, OnlyMarked, K.FetchInsn, I.FetchAndExpand, PlainFetch;
    CompilerFetch(pt, code, s, s.hart.pc);
    InterpreterFetch(pt, code, s);
  }
}
