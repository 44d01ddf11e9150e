/** The TLB never changes what an address translates to, and neither do the accessed/dirty updates the
    walk performs on the tables it is reading. */
module MmuProofs {
  import opened Base
  import opened Memory
  import opened Mmu

  /** What the tables alone say about an address: the walk with no TLB and no write-back. */
  function Resolve(m: Mem, c: Context, addr: u64, access: Access): Result<u64> {
    var levels := Levels(c.satp);
    if c.mode == Machine || levels == 0 then Ok(addr)
    else if !Canonical(levels, addr) then Err(PageFault(access, addr))
    else
      match FindLeaf(m, Root(c.satp), addr, levels - 1)
      case BusError => Err(AccessFault(access, addr))
      case BadEntry => Err(PageFault(access, addr))
      case Leaf(at, p, level) =>
        if Permitted(c.mode, c.mstatus, PtePerm(p), access) && SuperpageAligned(p, level)
        then Ok(PhysAddr(ResultPpn(p, level, addr), addr))
        else Err(PageFault(access, addr))
  }

  // ---------------------------------------------------------------------------------------------
  // Walks over memories that agree up to accessed/dirty bits
  // ---------------------------------------------------------------------------------------------

  /** Is there an access whose walk would change this entry? */
  predicate Markable(p: Pte) {
    p.v && (p.r || p.x) && (!p.a || (p.w && !p.d))
  }

  ghost predicate Settled(pt: Tables, m: Mem) {
    forall w :: w in pt.fixed ==> !Markable(Unpack(m.At(w)))
  }

  /** Every entry the walk for `addr` reads lies in a word of `pt`. */
  ghost predicate StaysIn(pt: Tables, m: Mem, table: Ppn, addr: u64, level: nat)
    decreases level
  {
    var at := PteAddr(table, addr, level);
    && pt.Has(Word(at))
    && (match Read(m, at, W64)
        case Err(_) => true
        case Ok(word) =>
          var p := Unpack(word);
          p.v && !p.r && !p.w && !p.x && level > 0 ==> StaysIn(pt, m, PtePpn(p), addr, level - 1))
  }

  /** `pt` contains every page-table entry any walk under `satp` can reach, and those it calls fixed are. */
  ghost predicate TablesIn(pt: Tables, m: Mem, satp: u64) {
    Levels(satp) > 0 ==> Settled(pt, m) && forall addr: u64 :: WalkIn(pt, m, satp, addr)
  }

  ghost predicate WalkIn(pt: Tables, m: Mem, satp: u64, addr: u64)
    requires Levels(satp) > 0
  {
    StaysIn(pt, m, Root(satp), addr, Levels(satp) - 1)
  }

  /** The same leaf up to its accessed and dirty flags, or the same failure. */
  ghost predicate SameFound(f: Found, g: Found) {
    match f
    case Leaf(at, p, level) =>
      g.Leaf? && g.at == at && g.level == level && g.pte.(a := false, d := false) == p.(a := false, d := false)
    case _ => f == g
  }

  lemma {:induction false} FindLeafAgrees(pt: Tables, keep: iset<int>, m: Mem, n: Mem, table: Ppn, addr: u64,
                                          level: nat)
    requires Agree(pt, keep, m, n) && StaysIn(pt, m, table, addr, level)
    ensures StaysIn(pt, n, table, addr, level)
    ensures SameFound(FindLeaf(m, table, addr, level), FindLeaf(n, table, addr, level))
    decreases level
  {
    hide Unpack, Agree, Read, PteAddr;
    var at := PteAddr(table, addr, level);
    ReadAgreesButAd(pt, keep, m, n, at);
    if Read(m, at, W64).Ok? {
      var p := Unpack(Read(m, at, W64).value);
      if p.v && !p.r && !p.w && !p.x && level > 0 {
        FindLeafAgrees(pt, keep, m, n, PtePpn(p), addr, level - 1);
      }
    }
  }

  lemma TablesAgree(pt: Tables, keep: iset<int>, m: Mem, n: Mem, satp: u64)
    requires Agree(pt, keep, m, n) && TablesIn(pt, m, satp)
    ensures TablesIn(pt, n, satp)
  {
    if Levels(satp) > 0 {
      forall addr: u64
        ensures WalkIn(pt, n, satp, addr)
      {
        assert WalkIn(pt, m, satp, addr);
        FindLeafAgrees(pt, keep, m, n, Root(satp), addr, Levels(satp) - 1);
      }
    }
  }

  /** Nothing the walk does with a leaf depends on its accessed and dirty flags. */
  lemma MarksIgnored(f: Found, g: Found, c: Context, addr: u64, access: Access)
    requires SameFound(f, g)
    ensures f.Leaf? <==> g.Leaf?
    ensures !f.Leaf? ==> f == g
    ensures f.Leaf? ==>
              && Permitted(c.mode, c.mstatus, PtePerm(f.pte), access)
                 == Permitted(c.mode, c.mstatus, PtePerm(g.pte), access)
              && SuperpageAligned(f.pte, f.level) == SuperpageAligned(g.pte, g.level)
              && ResultPpn(f.pte, f.level, addr) == ResultPpn(g.pte, g.level, addr)
  {
    hide PagesIn;
  }

  /** Memories that differ only in accessed/dirty bits of page-table words resolve every address alike,
      to the same physical address or the same fault, even when tables map themselves. */
  lemma ResolveAgrees(pt: Tables, keep: iset<int>, m: Mem, n: Mem, c: Context, addr: u64, access: Access)
    requires Agree(pt, keep, m, n) && TablesIn(pt, m, c.satp)
    ensures Resolve(m, c, addr, access) == Resolve(n, c, addr, access)
  {
    hide Canonical, Unpack, Agree, FindLeaf, PhysAddr, VpnFull, Asid, Settled, StaysIn, Permitted, SuperpageAligned,
      ResultPpn, SameFound, Levels;
    if Levels(c.satp) > 0 {
      assert WalkIn(pt, m, c.satp, addr);
      FindLeafAgrees(pt, keep, m, n, Root(c.satp), addr, Levels(c.satp) - 1);
      var l := Levels(c.satp) - 1;
      MarksIgnored(FindLeaf(m, Root(c.satp), addr, l), FindLeaf(n, Root(c.satp), addr, l), c, addr, access);
    }
  }

  // ---------------------------------------------------------------------------------------------
  // TLB coherence
  // ---------------------------------------------------------------------------------------------

  /** The 52-bit page number whose canonical addresses carry this `vpn`. */
  function PageNumber(levels: nat, vpn: u64): int {
    if levels == 3
    then (if vpn >= 0x400_0000 then vpn + 0x10_0000_0000_0000 - 0x800_0000 else vpn)
    else (if vpn >= 0x8_0000_0000 then vpn + 0x10_0000_0000_0000 - 0x10_0000_0000 else vpn)
  }

  /** Canonical addresses with equal virtual page numbers share a page. */
  lemma CanonicalPage(levels: nat, addr: u64)
    requires Canonical(levels, addr)
    ensures PageNumber(levels, VpnFull(levels, addr)) == addr / 4096
  {
    var page := addr / 4096;
    if levels == 3 {
      var top, low := page / 0x400_0000, page % 0x400_0000;
      assert page == 0x400_0000 * top + low;
      if top % 2 == 1 {
        assert top == 0x3FF_FFFF;
        assert page == 0x800_0000 * 0x1FF_FFFF + (0x400_0000 + low);
      }
    } else {
      var top, low := page / 0x8_0000_0000, page % 0x8_0000_0000;
      assert page == 0x8_0000_0000 * top + low;
      if top % 2 == 1 {
        assert top == 0x1_FFFF;
        assert page == 0x10_0000_0000 * 0xFFFF + (0x8_0000_0000 + low);
      }
    }
  }

  /** A walk depends on the address only through its page number. */
  lemma {:induction false} FindLeafSamePage(m: Mem, table: Ppn, addr: u64, other: u64, level: nat)
    requires addr / 4096 == other / 4096
    ensures FindLeaf(m, table, addr, level) == FindLeaf(m, table, other, level)
    decreases level
  {
    hide Unpack;
    assert PteAddr(table, addr, level) == PteAddr(table, other, level);
    match Read(m, PteAddr(table, addr, level), W64)
    case Err(_) =>
    case Ok(word) =>
      if level > 0 {
        FindLeafSamePage(m, PtePpn(Unpack(word)), addr, other, level - 1);
      }
  }

  /** What a cached entry records is what the walk for every address of its page finds. */
  ghost predicate EntryGood(m: Mem, satp: u64, e: TlbEntry)
    requires Levels(satp) > 0
  {
    forall addr: u64 :: addr / 4096 == PageNumber(Levels(satp), e.vpn) ==>
      Explains(e, FindLeaf(m, Root(satp), addr, Levels(satp) - 1), addr)
  }

  ghost predicate Explains(e: TlbEntry, f: Found, addr: u64) {
    && f.Leaf?
    && SuperpageAligned(f.pte, f.level)
    && e.ppn == ResultPpn(f.pte, f.level, addr)
    && e.perm.r == f.pte.r && e.perm.w == f.pte.w && e.perm.x == f.pte.x && e.perm.u == f.pte.u
  }

  ghost predicate Coherent(t: TlbView, m: Mem, satp: u64) {
    Levels(satp) > 0 ==> forall i :: 0 <= i < 64 && t[i].valid ==> EntryGood(m, satp, t[i])
  }

  lemma EntryGoodAgrees(pt: Tables, keep: iset<int>, m: Mem, n: Mem, satp: u64, e: TlbEntry)
    requires Agree(pt, keep, m, n) && TablesIn(pt, m, satp) && Levels(satp) > 0
    requires EntryGood(m, satp, e)
    ensures EntryGood(n, satp, e)
  {
    hide Agree, Settled, StaysIn, SameFound, Explains, FindLeaf, PageNumber, Levels, Root;
    forall addr: u64 | addr / 4096 == PageNumber(Levels(satp), e.vpn)
      ensures Explains(e, FindLeaf(n, Root(satp), addr, Levels(satp) - 1), addr)
    {
      assert Explains(e, FindLeaf(m, Root(satp), addr, Levels(satp) - 1), addr);
      assert WalkIn(pt, m, satp, addr);
      FindLeafAgrees(pt, keep, m, n, Root(satp), addr, Levels(satp) - 1);
      ExplainsSame(e, FindLeaf(m, Root(satp), addr, Levels(satp) - 1), FindLeaf(n, Root(satp), addr, Levels(satp) - 1),
                   addr);
    }
  }

  lemma ExplainsSame(e: TlbEntry, f: Found, g: Found, addr: u64)
    requires Explains(e, f, addr) && SameFound(f, g)
    ensures Explains(e, g, addr)
  {
    hide PagesIn;
  }

  lemma CoherentAgrees(pt: Tables, keep: iset<int>, t: TlbView, m: Mem, n: Mem, satp: u64)
    requires Agree(pt, keep, m, n) && TablesIn(pt, m, satp) && Coherent(t, m, satp)
    ensures Coherent(t, n, satp)
  {
    if Levels(satp) > 0 {
      forall i | 0 <= i < 64 && t[i].valid
        ensures EntryGood(n, satp, t[i])
      {
        EntryGoodAgrees(pt, keep, m, n, satp, t[i]);
      }
    }
  }

  // ---------------------------------------------------------------------------------------------
  // One translation
  // ---------------------------------------------------------------------------------------------

  /** The leaf the walk returns was read from memory, so it can be written back. */
  lemma {:induction false} LeafWasRead(pt: Tables, m: Mem, table: Ppn, addr: u64, level: nat)
    requires StaysIn(pt, m, table, addr, level)
    ensures var f := FindLeaf(m, table, addr, level);
            f.Leaf? ==> && pt.Has(Word(f.at)) && InDram(m, f.at, W64) && f.at % 8 == 0
                        && Unpack(m.At(Word(f.at))) == f.pte && f.pte.v && (f.pte.r || f.pte.x)
    decreases level
  {
    hide Unpack;
    match Read(m, PteAddr(table, addr, level), W64)
    case Err(_) =>
    case Ok(word) =>
      var p := Unpack(word);
      if p.v && !p.r && !p.w && !p.x && level > 0 {
        LeafWasRead(pt, m, PtePpn(p), addr, level - 1);
      }
  }

  /** The write-back of the walk: nothing, or one page-table word whose accessed (and, for a store,
      dirty) flag is turned on and whose other bits stay. */
  ghost predicate MarkedOneWord(pt: Tables, m: Mem, n: Mem, access: Access) {
    || n == m
    || exists w, marked :: w in pt.loose && n == m.(words := m.words[w := marked])
                           && Unpack(marked) == Marked(Unpack(m.At(w)), access)
  }

  /** A permitted access changes an entry only if it is markable. */
  lemma MarkedWasMarkable(c: Context, p: Pte, access: Access)
    requires Permitted(c.mode, c.mstatus, PtePerm(p), access) && p.v && (p.r || p.x) && Marked(p, access) != p
    ensures Markable(p)
  {
  }

  lemma MarkAgrees(pt: Tables, m: Mem, at: u64, p: Pte, access: Access)
    requires Word(at) in pt.loose && Word(at) !in pt.fixed
    requires InDram(m, at, W64) && at % 8 == 0 && Unpack(m.At(Word(at))) == p
    ensures Write(m, at, W64, Pack(Marked(p, access))).Ok?
    ensures var n := Write(m, at, W64, Pack(Marked(p, access))).value;
            MarkedOneWord(pt, m, n, access) && Agree(pt, Outside(pt), m, n)
  {
    AgreeUpdate(pt, Outside(pt), m, Word(at), Pack(Marked(p, access)));
    hide Unpack, Agree, Word, Pack;
    var n := Write(m, at, W64, Pack(Marked(p, access))).value;
    assert n == m.(words := m.words[Word(at) := Pack(Marked(p, access))]);
  }

  /** One call of `translate`: from a coherent TLB it answers what the tables say, keeps the TLB
      coherent, and changes memory only by marking one page-table entry. */
  lemma TranslateSound(pt: Tables, t: TlbView, m: Mem, c: Context, addr: u64, access: Access)
    requires TablesIn(pt, m, c.satp) && Coherent(t, m, c.satp)
    ensures var o := Translate(t, m, c, addr, access);
            && o.res == Resolve(m, c, addr, access)
            && MarkedOneWord(pt, m, o.mem, access)
            && Agree(pt, Outside(pt), m, o.mem)
            && Coherent(o.tlb, o.mem, c.satp)
            && TablesIn(pt, o.mem, c.satp)
  {
    hide Unpack;
    var levels := Levels(c.satp);
    if c.mode != Machine && levels > 0 && Canonical(levels, addr) {
      CanonicalPage(levels, addr);
      var vpn := VpnFull(levels, addr);
      hide Canonical, VpnFull, PageNumber;
      var e := t[Slot(vpn)];
      var f := FindLeaf(m, Root(c.satp), addr, levels - 1);
      if Hit(e, vpn, Asid(c.satp)) {
        assert Explains(e, f, addr);
      } else {
        WalkSound(pt, t, m, c, addr, access);
      }
    }
  }

  lemma WalkSound(pt: Tables, t: TlbView, m: Mem, c: Context, addr: u64, access: Access)
    requires TablesIn(pt, m, c.satp) && Coherent(t, m, c.satp)
    requires c.mode != Machine && Levels(c.satp) > 0 && Canonical(Levels(c.satp), addr)
    ensures var o := WalkAndFill(t, m, c, addr, access);
            && o.res == Resolve(m, c, addr, access)
            && MarkedOneWord(pt, m, o.mem, access)
            && Agree(pt, Outside(pt), m, o.mem)
            && Coherent(o.tlb, o.mem, c.satp)
            && TablesIn(pt, o.mem, c.satp)
  {
    hide Unpack, Canonical, VpnFull, PageNumber, ResultPpn, Permitted, SuperpageAligned, Agree;
    var levels := Levels(c.satp);
    var f := FindLeaf(m, Root(c.satp), addr, levels - 1);
    assert WalkIn(pt, m, c.satp, addr);
    LeafWasRead(pt, m, Root(c.satp), addr, levels - 1);
    AgreeRefl(pt, Outside(pt), m);
    if f.Leaf? && Permitted(c.mode, c.mstatus, PtePerm(f.pte), access) && SuperpageAligned(f.pte, f.level) {
      var marked := Marked(f.pte, access);
      if marked != f.pte {
        MarkedWasMarkable(c, f.pte, access);
        MarkAgrees(pt, m, f.at, f.pte, access);
      }
      var n := if marked != f.pte then Write(m, f.at, W64, Pack(marked)).value else m;
      TablesAgree(pt, Outside(pt), m, n, c.satp);
      var e := TlbEntry(VpnFull(levels, addr), ResultPpn(f.pte, f.level, addr), Asid(c.satp), PtePerm(marked), f.level,
                        true);
      FillCoherent(pt, t, m, n, c, addr, e);
    }
  }

  /** Filling a slot with what the walk found keeps the TLB coherent with the marked tables. */
  lemma FillCoherent(pt: Tables, t: TlbView, m: Mem, n: Mem, c: Context, addr: u64, e: TlbEntry)
    requires Levels(c.satp) > 0 && Canonical(Levels(c.satp), addr)
    requires TablesIn(pt, m, c.satp) && Coherent(t, m, c.satp) && Agree(pt, Outside(pt), m, n)
    requires e.vpn == VpnFull(Levels(c.satp), addr)
    requires Explains(e, FindLeaf(m, Root(c.satp), addr, Levels(c.satp) - 1), addr)
    ensures Coherent(t[Slot(e.vpn) := e], n, c.satp)
  {
    CoherentAgrees(pt, Outside(pt), t, m, n, c.satp);
    NewEntryGood(pt, m, n, c, addr, e);
    hide EntryGood;
  }

  /** The entry the walk inserts is good for every address of its page. */
  lemma NewEntryGood(pt: Tables, m: Mem, n: Mem, c: Context, addr: u64, e: TlbEntry)
    requires Levels(c.satp) > 0 && Canonical(Levels(c.satp), addr)
    requires TablesIn(pt, m, c.satp) && Agree(pt, Outside(pt), m, n)
    requires e.vpn == VpnFull(Levels(c.satp), addr)
    requires Explains(e, FindLeaf(m, Root(c.satp), addr, Levels(c.satp) - 1), addr)
    ensures EntryGood(n, c.satp, e)
  {
    var levels := Levels(c.satp);
    CanonicalPage(levels, addr);
    forall other: u64 | other / 4096 == PageNumber(levels, e.vpn)
      ensures Explains(e, FindLeaf(m, Root(c.satp), other, levels - 1), other)
    {
      FindLeafSamePage(m, Root(c.satp), addr, other, levels - 1);
    }
    assert EntryGood(m, c.satp, e);
    EntryGoodAgrees(pt, Outside(pt), m, n, c.satp, e);
  }

  // ---------------------------------------------------------------------------------------------
  // Whole runs
  // ---------------------------------------------------------------------------------------------

  datatype Request = Request(mode: Mode, mstatus: u64, addr: u64, access: Access)

  /** Results of a run of translations under one satp, the TLB and memory carried along. */
  function RunTranslate(t: TlbView, m: Mem, satp: u64, reqs: seq<Request>): (r: seq<Result<u64>>)
    ensures |r| == |reqs|
    decreases |reqs|
  {
    if reqs == [] then []
    else
      var q := reqs[0];
      var o := Translate(t, m, Context(q.mode, satp, q.mstatus), q.addr, q.access);
      [o.res] + RunTranslate(o.tlb, o.mem, satp, reqs[1..])
  }

  /** Every entry may be a page-table word. */
  ghost function AnyWord(): Tables {
    Tables(iset{}, Outside(NO_TABLES))
  }

  lemma {:induction false} AnyTables(m: Mem, table: Ppn, addr: u64, level: nat)
    ensures StaysIn(AnyWord(), m, table, addr, level)
    decreases level
  {
    hide Unpack;
    match Read(m, PteAddr(table, addr, level), W64)
    case Err(_) =>
    case Ok(word) =>
      if level > 0 {
        AnyTables(m, PtePpn(Unpack(word)), addr, level - 1);
      }
  }

  lemma AnyTablesIn(m: Mem, satp: u64)
    ensures TablesIn(AnyWord(), m, satp)
  {
    if Levels(satp) > 0 {
      forall addr: u64
        ensures WalkIn(AnyWord(), m, satp, addr)
      {
        AnyTables(m, Root(satp), addr, Levels(satp) - 1);
      }
    }
  }

  /** TLB transparency: from an empty TLB, whatever modes, mstatus values, accesses and addresses a run
      uses, every call answers what an empty TLB over the initial tables would answer. */
  lemma TlbTransparent(m: Mem, satp: u64, reqs: seq<Request>, i: nat)
    requires i < |reqs|
    ensures RunTranslate(EmptyTlb(), m, satp, reqs)[i]
         == Translate(EmptyTlb(), m, Context(reqs[i].mode, satp, reqs[i].mstatus), reqs[i].addr, reqs[i].access).res
  {
    AnyTablesIn(m, satp);
    var q := reqs[i];
    TranslateSound(AnyWord(), EmptyTlb(), m, Context(q.mode, satp, q.mstatus), q.addr, q.access);
    RunResolves(m, EmptyTlb(), m, satp, reqs, i);
  }

  lemma {:induction false} RunResolves(m: Mem, t: TlbView, n: Mem, satp: u64, reqs: seq<Request>, i: nat)
    requires i < |reqs|
    requires TablesIn(AnyWord(), m, satp) && Agree(AnyWord(), Outside(AnyWord()), m, n) && Coherent(t, n, satp)
    ensures RunTranslate(t, n, satp, reqs)[i]
         == Resolve(m, Context(reqs[i].mode, satp, reqs[i].mstatus), reqs[i].addr, reqs[i].access)
    decreases i
  {
    hide Translate, Resolve, Agree, Coherent, TablesIn;
    var pt, keep := AnyWord(), Outside(AnyWord());
    var q := reqs[0];
    var c := Context(q.mode, satp, q.mstatus);
    var o := Translate(t, n, c, q.addr, q.access);
    TablesAgree(pt, keep, m, n, satp);
    TranslateSound(pt, t, n, c, q.addr, q.access);
    if i == 0 {
      ResolveAgrees(pt, keep, m, n, c, q.addr, q.access);
    } else {
      AgreeTransitive(pt, keep, m, n, o.mem);
      RunResolves(m, o.tlb, o.mem, satp, reqs[1..], i - 1);
    }
  }

  /** Two memories that differ only in bits 6 and 7 of 8-byte words translate every address alike, for
      every mode, privilege setting and access type. */
  lemma AdBitsInvisible(m: Mem, n: Mem, c: Context, addr: u64, access: Access)
    requires m.base == n.base && m.size == n.size && forall w :: ButAd(m.At(w)) == ButAd(n.At(w))
    ensures Translate(EmptyTlb(), m, c, addr, access).res == Translate(EmptyTlb(), n, c, addr, access).res
  {
    AnyTablesIn(m, c.satp);
    AnyTablesIn(n, c.satp);
    assert Agree(AnyWord(), Outside(AnyWord()), m, n);
    TranslateSound(AnyWord(), EmptyTlb(), m, c, addr, access);
    TranslateSound(AnyWord(), EmptyTlb(), n, c, addr, access);
    ResolveAgrees(AnyWord(), Outside(AnyWord()), m, n, c, addr, access);
  }
}
