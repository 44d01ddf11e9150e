/** Address translation against section 4.3.2 of the RISC-V Privileged Architecture 20211203, with satp, mstatus,
    addresses and page-table entries read bit by bit. */
module PageWalk {
  import opened Base
  import opened Bits
  import opened BitLaws
  import opened Memory
  import M = Mmu
  import P = MmuProofs

  // ---- The architecture's walk -------------------------------------------------------------------------------

  /** What a walk reads last. */
  datatype Last = Leaf(pte: u64, level: nat) | Invalid | Unreadable

  /** The entry for `va` in the table on page `table`. */
  function EntryAddress(table: nat, va: u64, level: nat): (at: u64)
    requires table < 0x1000_0000_0000
  {
    NineBits(va, 12 + 9 * level);
    4096 * table + 8 * Field(va, 12 + 9 * level, 9)
  }

  lemma NineBits(x: nat, lo: nat)
    ensures Field(x, lo, 9) < 512
  {
    SmallPowers();
  }

  lemma Ppn44(x: nat, lo: nat)
    ensures Field(x, lo, 44) < 0x1000_0000_0000
  {
    Powers();
  }

  /** Follow pointer entries (R = W = X = 0) from the table on page `table` down. */
  function Walked(m: Mem, va: u64, table: nat, level: nat): Last
    requires table < 0x1000_0000_0000
    decreases level
  {
    match Read(m, EntryAddress(table, va, level), W64)
    case Err(_) => Unreadable
    case Ok(pte) =>
      if !Bit(pte, 0) || (!Bit(pte, 1) && Bit(pte, 2)) then Invalid
      else if Bit(pte, 1) || Bit(pte, 3) then Leaf(pte, level)
      else if level == 0 then Invalid
      else
        Ppn44(pte, 10);
        Walked(m, va, Field(pte, 10, 44), level - 1)
  }

  /** May this mode access a page with this entry?  U is bit 4, R, W and X are bits 1 to 3; SUM and MXR are bits
      18 and 19 of mstatus. */
  predicate MayAccess(mode: Mode, mstatus: u64, pte: u64, access: M.Access) {
    && (mode == User ==> Bit(pte, 4))
    && (mode == Supervisor && Bit(pte, 4) ==> access != M.Instruction && Bit(mstatus, 18))
    && (match access
        case Instruction => Bit(pte, 3)
        case Store => Bit(pte, 2)
        case Load => Bit(pte, 1) || (Bit(mstatus, 19) && Bit(pte, 3)))
  }

  function PageFaultOf(access: M.Access, va: u64): Trap {
    match access
    case Instruction => InstructionPageFault(va)
    case Load => LoadPageFault(va)
    case Store => StorePageFault(va)
  }

  function AccessFaultOf(access: M.Access, va: u64): Trap {
    match access
    case Instruction => InstructionAccessFault(va)
    case Load => LoadAccessFault(va)
    case Store => StoreAccessFault(va)
  }

  /** Levels of the scheme in satp's MODE field: 8 is Sv39, 9 is Sv48. */
  function LevelsOf(satp: u64): nat {
    if Field(satp, 60, 4) == 8 then 3 else if Field(satp, 60, 4) == 9 then 4 else 0
  }

  /** All bits above the translated ones equal the highest translated one. */
  ghost predicate SignExtended(va: u64, levels: nat) {
    forall j: nat :: 12 + 9 * levels <= j < 64 ==> Bit(va, j) == Bit(va, 11 + 9 * levels)
  }

  /** The entry's page number above the page offset, which for a superpage reaches further up. */
  function Physical(va: u64, pte: u64, level: nat): nat
    requires level < 4
  {
    Field(va, 0, 12 + 9 * level) + Pow2(12 + 9 * level) * Field(pte, 10 + 9 * level, 44 - 9 * level)
  }

  /** `r` is the architecture's answer. */
  ghost predicate Answers(r: Result<u64>, m: Mem, mode: Mode, satp: u64, mstatus: u64, va: u64, access: M.Access) {
    var levels := LevelsOf(satp);
    if mode == Machine || levels == 0 then r == Ok(va)
    else if !SignExtended(va, levels) then r == Err(PageFaultOf(access, va))
    else
      Ppn44(satp, 0);
      match Walked(m, va, Field(satp, 0, 44), levels - 1)
      case Unreadable => r == Err(AccessFaultOf(access, va))
      case Invalid => r == Err(PageFaultOf(access, va))
      case Leaf(pte, level) =>
        if MayAccess(mode, mstatus, pte, access) && Field(pte, 10, 9 * level) == 0
        then level < 4 && r.Ok? && r.value == Physical(va, pte, level)
        else r == Err(PageFaultOf(access, va))
  }

  // ---- Numbers ---------------------------------------------------------------------------------------------------

  lemma Powers()
    ensures Pow2(18) == 0x4_0000 && Pow2(19) == 0x8_0000 && Pow2(26) == 0x400_0000 && Pow2(27) == 0x800_0000
    ensures Pow2(35) == 0x8_0000_0000 && Pow2(44) == 0x1000_0000_0000 && Pow2(60) == 0x1000_0000_0000_0000
    ensures Pow2(25) == 0x200_0000 && Pow2(16) == 0x1_0000 && Pow2(17) == 0x2_0000
    ensures Pow2(4) == 16 && Pow2(9) == 0x200 && Pow2(12) == 4096
  {
    hide Pow2;
    SmallPowers();
    Pow2Add(9, 9);
    Pow2Add(1, 18);
    Pow2Add(8, 8);
    Pow2Add(1, 16);
    Pow2Add(8, 18);
    Pow2Add(7, 18);
    Pow2Add(9, 18);
    Pow2Add(8, 27);
    Pow2Add(9, 35);
    Pow2Add(16, 44);
  }

  lemma ShiftedBy(x: nat, k: nat, d: nat)
    requires Pow2(k) == d
    ensures Shifted(x, k) == x / d
  {
    ShiftedIs(x, k);
  }

  /** The flags of an entry are its bits. */
  lemma EntryBits(pte: u64)
    ensures var p := Unpack(pte);
            && p.v == Bit(pte, 0) && p.r == Bit(pte, 1) && p.w == Bit(pte, 2) && p.x == Bit(pte, 3)
               && p.u == Bit(pte, 4)
            && p.high == Shifted(pte, 8)
  {
    SmallPowers();
    BitAt(pte, 1);
    BitAt(pte, 2);
    BitAt(pte, 3);
    BitAt(pte, 4);
    ShiftedIs(pte, 8);
  }

  /** The page number of an entry is its bits 10 to 53. */
  lemma EntryPpn(pte: u64)
    ensures M.PtePpn(Unpack(pte)) == Field(pte, 10, 44)
  {
    hide Pow2, Shifted, Low;
    Powers();
    SmallPowers();
    EntryBits(pte);
    ShiftedTwice(pte, 8, 2);
    ShiftedBy(Shifted(pte, 8), 2, 4);
    LowIs(Shifted(pte, 10), 44);
    hide Unpack;
  }

  lemma IndexBits(va: u64, level: nat)
    requires level < 4
    ensures M.Vpn(va, level) == Field(va, 12 + 9 * level, 9)
  {
    hide Pow2, Shifted, Low;
    Powers();
    ShiftedBy(va, 12, 4096);
    var page := Shifted(va, 12);
    ShiftedTwice(va, 12, 9);
    ShiftedTwice(va, 21, 9);
    ShiftedTwice(va, 30, 9);
    ShiftedBy(page, 9, 512);
    ShiftedBy(Shifted(va, 21), 9, 512);
    ShiftedBy(Shifted(va, 30), 9, 512);
    LowIs(Shifted(va, 12 + 9 * level), 9);
  }

  lemma SatpBits(satp: u64)
    ensures M.Levels(satp) == LevelsOf(satp) && M.Root(satp) == Field(satp, 0, 44)
  {
    hide Pow2, Field, Low;
    Powers();
    FieldIs(satp, 60, 4, 0x1000_0000_0000_0000, 16);
    LowIs(satp, 44);
    FieldOfWhole(satp, 44);
  }

  lemma FieldOfWhole(x: nat, n: nat)
    ensures Field(x, 0, n) == Low(x, n)
  {
  }

  lemma StatusBits(mstatus: u64)
    ensures Bit(mstatus, 18) <==> mstatus / 0x4_0000 % 2 == 1
    ensures Bit(mstatus, 19) <==> mstatus / 0x8_0000 % 2 == 1
  {
    hide Pow2, Bit;
    Powers();
    BitAt(mstatus, 18);
    BitAt(mstatus, 19);
  }

  // ---- Canonical addresses -----------------------------------------------------------------------------------------

  ghost predicate AllBits(x: nat, n: nat, b: bool) {
    forall j: nat :: j < n ==> Bit(x, j) == b
  }

  function Constant(n: nat, b: bool): nat {
    if b then Pow2(n) - 1 else 0
  }

  /** A number of `n` bits, all ones or all zeros. */
  lemma OnesOrZeros(x: nat, n: nat, b: bool)
    requires x < Pow2(n)
    ensures AllBits(x, n, b) <==> x == Constant(n, b)
  {
    hide Pow2, Bit;
    var v := Constant(n, b);
    forall j: nat | j < n
      ensures Bit(v, j) == b
    {
      BitOfOnes(n, j);
      BitOfZero(j);
    }
    if AllBits(x, n, b) {
      forall j | 0 <= j < n
        ensures Bit(x, j) == Bit(v, j)
      {
        assert Bit(x, j) == b;
      }
      BitsDetermineBelow(x, v, n);
    }
  }

  /** With `t` the address from bit `k` on. */
  lemma TopPart(va: u64, k: nat)
    requires 1 <= k < 64
    ensures var t := Shifted(va, k);
            && t < Pow2(64 - k) && (Bit(va, k) <==> t % 2 == 1) && t / 2 < Pow2(63 - k)
            && forall j: nat :: Bit(t / 2, j) == Bit(va, k + 1 + j)
  {
    var t := Shifted(va, k);
    TopBound(va, k);
    BitOfShifted(va, k, 0);
    forall j: nat
      ensures Bit(t / 2, j) == Bit(va, k + 1 + j)
    {
      BitOfShifted(va, k, j + 1);
    }
    hide Shifted;
  }

  lemma TopBound(va: u64, k: nat)
    requires k <= 64
    ensures Shifted(va, k) < Pow2(64 - k)
  {
    hide Pow2, Shifted;
    Pow2Values();
    ShiftedBelow(va, k, 64);
  }

  /** Sign extension, in terms of the part from the top translated bit on. */
  lemma ExtensionIs(va: u64, levels: nat)
    requires levels == 3 || levels == 4
    ensures var k := 11 + 9 * levels;
            var t := Shifted(va, k);
            SignExtended(va, levels) <==> t / 2 == Constant(63 - k, t % 2 == 1)
  {
    hide Pow2, Bit, Shifted, Constant;
    var k := 11 + 9 * levels;
    var t := Shifted(va, k);
    TopPart(va, k);
    OnesOrZeros(t / 2, 63 - k, t % 2 == 1);
    if SignExtended(va, levels) {
      forall j: nat | j < 63 - k
        ensures Bit(t / 2, j) == (t % 2 == 1)
      {
        assert Bit(va, k + 1 + j) == Bit(va, k);
      }
      assert AllBits(t / 2, 63 - k, t % 2 == 1);
    }
    if AllBits(t / 2, 63 - k, t % 2 == 1) {
      forall j: nat | k + 1 <= j < 64
        ensures Bit(va, j) == Bit(va, k)
      {
        assert Bit(t / 2, j - k - 1) == Bit(va, k + 1 + (j - k - 1));
      }
      assert SignExtended(va, levels);
    }
  }

  lemma CanonicalIs(va: u64, levels: nat)
    requires levels == 3 || levels == 4
    ensures M.Canonical(levels, va) <==> SignExtended(va, levels)
  {
    hide Pow2, Shifted, SignExtended;
    Powers();
    ExtensionIs(va, levels);
    ShiftedBy(va, 12, 4096);
    ShiftedTwice(va, 12, 26);
    ShiftedTwice(va, 12, 35);
    ShiftedBy(Shifted(va, 12), 26, 0x400_0000);
    ShiftedBy(Shifted(va, 12), 35, 0x8_0000_0000);
  }

  // ---- The walk -----------------------------------------------------------------------------------------------------

  ghost predicate SameLast(f: M.Found, l: Last) {
    match l
    case Leaf(pte, level) => f.Leaf? && f.pte == Unpack(pte) && f.level == level
    case Invalid => f.BadEntry?
    case Unreadable => f.BusError?
  }

  /** The walk follows the architecture's. */
  lemma {:induction false} FindLeafFollows(m: Mem, table: M.Ppn, va: u64, level: nat)
    requires level < 4
    ensures SameLast(M.FindLeaf(m, table, va, level), Walked(m, va, table, level))
    ensures Walked(m, va, table, level).Leaf? ==> Walked(m, va, table, level).level <= level
    decreases level
  {
    hide Unpack, Bit, Field, Read;
    IndexBits(va, level);
    var at := EntryAddress(table, va, level);
    assert at == M.PteAddr(table, va, level);
    match Read(m, at, W64)
    case Err(_) =>
    case Ok(pte) =>
      EntryBits(pte);
      EntryPpn(pte);
      if level > 0 {
        FindLeafFollows(m, M.PtePpn(Unpack(pte)), va, level - 1);
      }
  }

  lemma AccessBits(mode: Mode, mstatus: u64, pte: u64, access: M.Access)
    ensures M.Permitted(mode, mstatus, M.PtePerm(Unpack(pte)), access) == MayAccess(mode, mstatus, pte, access)
  {
    hide Unpack, Bit;
    EntryBits(pte);
    StatusBits(mstatus);
  }

  // ---- Superpages ---------------------------------------------------------------------------------------------------

  lemma PagesAre(level: nat)
    requires level < 4
    ensures M.PagesIn(level) == Pow2(9 * level)
  {
    hide Pow2;
    Powers();
    SmallPowers();
  }

  /** The page number of an entry splits at the level's index bits. */
  lemma PpnSplits(pte: u64, level: nat)
    requires level < 4
    ensures var ppn, p := Field(pte, 10, 44), Pow2(9 * level);
            && ppn % p == Field(pte, 10, 9 * level)
            && ppn == Field(pte, 10, 9 * level) + p * Field(pte, 10 + 9 * level, 44 - 9 * level)
  {
    hide Pow2, Field;
    FieldSplit(pte, 10, 9 * level, 44 - 9 * level);
    Quotient(Field(pte, 10, 44), Pow2(9 * level), Field(pte, 10 + 9 * level, 44 - 9 * level),
             Field(pte, 10, 9 * level));
  }

  lemma AlignedIs(pte: u64, level: nat)
    requires level < 4
    ensures M.SuperpageAligned(Unpack(pte), level) <==> Field(pte, 10, 9 * level) == 0
  {
    hide Pow2, Unpack, M.PagesIn, M.PtePpn;
    PagesAre(level);
    EntryPpn(pte);
    PpnSplits(pte, level);
    if level == 0 {
      EmptyField(pte, 10);
    }
    hide Field;
  }

  /** The low bits of the address up to the level's page size. */
  lemma OffsetSplits(va: u64, level: nat)
    requires level < 4
    ensures Field(va, 0, 12 + 9 * level) == va % 4096 + 4096 * (va / 4096 % Pow2(9 * level))
  {
    hide Pow2, Low, Shifted, Field;
    Powers();
    SmallPowers();
    FieldSplit(va, 0, 12, 9 * level);
    FieldIs(va, 0, 12, 1, 4096);
    FieldIs(va, 12, 9 * level, 4096, Pow2(9 * level));
  }

  lemma PhysicalIs(pte: u64, level: nat, va: u64)
    requires level < 4 && Field(pte, 10, 9 * level) == 0
    ensures M.PhysAddr(M.ResultPpn(Unpack(pte), level, va), va) == Physical(va, pte, level)
  {
    hide Pow2, Unpack, M.PagesIn, M.PtePpn, Field;
    PagesAre(level);
    EntryPpn(pte);
    PpnSplits(pte, level);
    OffsetSplits(va, level);
    Powers();
    Pow2Add(12, 9 * level);
    Assemble(Pow2(9 * level), Field(pte, 10 + 9 * level, 44 - 9 * level), va / 4096 % Pow2(9 * level), va % 4096);
  }

  lemma Assemble(p: int, hi: int, mid: int, off: int)
    ensures (p * hi + mid) * 4096 + off == (off + 4096 * mid) + 4096 * p * hi
  {
  }

  // ---- The theorem --------------------------------------------------------------------------------------------------

  /** What the tables say is the architecture's answer. */
  lemma ResolveFollows(m: Mem, c: M.Context, va: u64, access: M.Access)
    ensures Answers(P.Resolve(m, c, va, access), m, c.mode, c.satp, c.mstatus, va, access)
  {
    hide M.Canonical, SignExtended, M.FindLeaf, Walked, M.Levels, M.Root, LevelsOf, Unpack, Field, M.Permitted,
      MayAccess, M.SuperpageAligned, M.ResultPpn, M.PhysAddr, Physical;
    SatpBits(c.satp);
    LevelCount(c.satp);
    var levels := LevelsOf(c.satp);
    if c.mode != Machine && levels > 0 {
      CanonicalIs(va, levels);
      Ppn44(c.satp, 0);
      FindLeafFollows(m, Field(c.satp, 0, 44), va, levels - 1);
      match Walked(m, va, Field(c.satp, 0, 44), levels - 1)
      case Leaf(pte, level) =>
        AccessBits(c.mode, c.mstatus, pte, access);
        AlignedIs(pte, level);
        if Field(pte, 10, 9 * level) == 0 {
          PhysicalIs(pte, level, va);
        }
      case _ =>
    }
  }

  lemma LevelCount(satp: u64)
    ensures LevelsOf(satp) == 0 || LevelsOf(satp) == 3 || LevelsOf(satp) == 4
  {
  }

  /** Translation, whether it hits the TLB or walks, gives the architecture's answer for the tables in memory. */
  lemma TranslateFollows(pt: Tables, t: M.TlbView, m: Mem, c: M.Context, va: u64, access: M.Access)
    requires P.TablesIn(pt, m, c.satp) && P.Coherent(t, m, c.satp)
    ensures Answers(M.Translate(t, m, c, va, access).res, m, c.mode, c.satp, c.mstatus, va, access)
  {
    hide Answers, M.Translate, P.Resolve, P.TablesIn, P.Coherent, Agree;
    P.TranslateSound(pt, t, m, c, va, access);
    ResolveFollows(m, c, va, access);
  }

  /** From an empty TLB, every call of every run of translations gives the architecture's answer for the tables
      the run began with. */
  lemma RunFollows(m: Mem, satp: u64, reqs: seq<P.Request>, i: nat)
    requires i < |reqs|
    ensures var q := reqs[i];
            Answers(P.RunTranslate(M.EmptyTlb(), m, satp, reqs)[i], m, q.mode, satp, q.mstatus, q.addr, q.access)
  {
    hide Answers, M.Translate, P.Resolve;
    var q := reqs[i];
    var c := M.Context(q.mode, satp, q.mstatus);
    P.TlbTransparent(m, satp, reqs, i);
    P.AnyTablesIn(m, satp);
    TranslateFollows(P.AnyWord(), M.EmptyTlb(), m, c, q.addr, q.access);
  }

  /** When a translated address is answered at all, and with what: the conditions on the entry read last. */
  lemma AnsweredExactly(m: Mem, c: M.Context, va: u64, access: M.Access)
    requires c.mode != Machine && LevelsOf(c.satp) > 0 && SignExtended(va, LevelsOf(c.satp))
    requires Field(c.satp, 0, 44) < 0x1000_0000_0000
    requires Walked(m, va, Field(c.satp, 0, 44), LevelsOf(c.satp) - 1).Leaf?
    ensures var l := Walked(m, va, Field(c.satp, 0, 44), LevelsOf(c.satp) - 1);
            var r := M.Translate(M.EmptyTlb(), m, c, va, access).res;
            && (r.Ok? <==> MayAccess(c.mode, c.mstatus, l.pte, access) && Field(l.pte, 10, 9 * l.level) == 0)
            && (r.Ok? ==> l.level < 4 && r.value == Physical(va, l.pte, l.level))
  {
    hide M.Translate, Walked, Field, MayAccess, SignExtended, Physical;
    P.AnyTablesIn(m, c.satp);
    TranslateFollows(P.AnyWord(), M.EmptyTlb(), m, c, va, access);
  }

  // ---- Marks --------------------------------------------------------------------------------------------------------

  /** Marking sets bit 6, for stores also bit 7, and changes no other bit of the entry. */
  lemma MarkedBits(word: u64, access: M.Access, j: nat)
    requires j < 64
    ensures Bit(Pack(M.Marked(Unpack(word), access)), j)
         == (Bit(word, j) || j == 6 || (j == 7 && access == M.Store))
  {
    var marked := Pack(M.Marked(Unpack(word), access));
    FlagsAndRest(word, j);
    FlagsAndRest(marked, j);
    hide Unpack, Pack, Bit;
  }

  /** The parts of an entry, bit by bit. */
  lemma FlagsAndRest(word: u64, j: nat)
    ensures var p := Unpack(word);
            Bit(word, j) == if j == 0 then p.v else if j == 1 then p.r else if j == 2 then p.w else if j == 3 then p.x
                            else if j == 4 then p.u else if j == 5 then p.g else if j == 6 then p.a
                            else if j == 7 then p.d else Bit(p.high, j - 8)
  {
    hide Pow2;
    SmallPowers();
    BitAt(word, j);
    if j < 8 {
      LowBits(word);
    } else {
      ShiftedIs(word, 8);
      BitOfShifted(word, 8, j - 8);
      EntryBits(word);
    }
    hide Bit, Shifted;
  }

  lemma LowBits(word: u64)
    ensures var p := Unpack(word);
            && p.v == Bit(word, 0) && p.r == Bit(word, 1) && p.w == Bit(word, 2) && p.x == Bit(word, 3)
            && p.u == Bit(word, 4) && p.g == Bit(word, 5) && p.a == Bit(word, 6) && p.d == Bit(word, 7)
  {
    assert Bit(word, 2) == Bit(word / 2 / 2, 0);
    assert Bit(word, 3) == Bit(word / 2 / 2 / 2, 0);
    assert Bit(word, 4) == Bit(word / 2 / 2 / 2 / 2, 0);
    assert Bit(word, 5) == Bit(word / 2 / 2 / 2 / 2 / 2, 0);
    assert Bit(word, 6) == Bit(word / 2 / 2 / 2 / 2 / 2 / 2, 0);
    assert Bit(word, 7) == Bit(word / 2 / 2 / 2 / 2 / 2 / 2 / 2, 0);
  }
}
