/** Sv39/Sv48 address translation with a direct-mapped TLB, as mathematical functions on a TLB and a
    memory.  The walk writes accessed/dirty bits into the tables it reads. */
module Mmu {
  import opened Base
  import opened Memory

  datatype Access = Instruction | Load | Store

  /** Unpacked permission byte of a leaf entry. */
  datatype Perm = Perm(r: bool, w: bool, x: bool, u: bool, g: bool, a: bool, d: bool)

  type Ppn = x: int | 0 <= x < 0x1000_0000_0000

  datatype TlbEntry = TlbEntry(vpn: u64, ppn: Ppn, asid: int, perm: Perm, level: nat, valid: bool)

  const EMPTY_ENTRY := TlbEntry(0, 0, 0, Perm(false, false, false, false, false, false, false), 0, false)

  /** The 64 direct-mapped entries. */
  type TlbView = t: seq<TlbEntry> | |t| == 64 witness seq(64, _ => EMPTY_ENTRY)

  function EmptyTlb(): TlbView {
    seq(64, _ => EMPTY_ENTRY)
  }

  function Flushed(t: TlbView): TlbView {
    seq(64, i requires 0 <= i < 64 => t[i].(valid := false))
  }

  /** What a translation request depends on besides the address. */
  datatype Context = Context(mode: Mode, satp: u64, mstatus: u64)

  /** Number of table levels selected by satp; 0 when addresses are not translated. */
  function Levels(satp: u64): nat {
    var field := satp / 0x1000_0000_0000_0000 % 16;
    if field == 8 then 3 else if field == 9 then 4 else 0
  }

  function Asid(satp: u64): int {
    satp / 0x1000_0000_0000 % 0x1_0000
  }

  function Root(satp: u64): Ppn {
    satp % 0x1000_0000_0000
  }

  /** Are all address bits above the configured width (39 or 48) copies of the top translated bit? */
  predicate Canonical(levels: nat, addr: u64) {
    if levels == 3 then
      var top := addr / 4096 / 0x400_0000;
      top / 2 == (if top % 2 == 1 then 0x1FF_FFFF else 0)
    else
      var top := addr / 4096 / 0x8_0000_0000;
      top / 2 == (if top % 2 == 1 then 0xFFFF else 0)
  }

  function VpnFull(levels: nat, addr: u64): u64 {
    addr / 4096 % (if levels == 3 then 0x800_0000 else 0x10_0000_0000)
  }

  /** Index into the table at `level`. */
  function Vpn(addr: u64, level: nat): int {
    var page := addr / 4096;
    if level == 0 then page % 512
    else if level == 1 then page / 512 % 512
    else if level == 2 then page / 512 / 512 % 512
    else page / 512 / 512 / 512 % 512
  }

  /** Number of 4 KiB pages in a page of this level. */
  function PagesIn(level: nat): (n: nat)
    ensures n > 0
  {
    if level == 0 then 1 else if level == 1 then 0x200 else if level == 2 then 0x4_0000 else 0x800_0000
  }

  function PtePpn(p: Pte): Ppn {
    p.high / 4 % 0x1000_0000_0000
  }

  function PtePerm(p: Pte): Perm {
    Perm(p.r, p.w, p.x, p.u, p.g, p.a, p.d)
  }

  /** Outcome of following the table pointers: a leaf entry, a bad entry, or a bus error. */
  datatype Found = Leaf(at: u64, pte: Pte, level: nat) | BadEntry | BusError

  /** Address of the entry the walk reads in table `table` at `level`. */
  function PteAddr(table: Ppn, addr: u64, level: nat): (at: u64)
    ensures at % 8 == 0
  {
    table * 4096 + Vpn(addr, level) * 8
  }

  function FindLeaf(m: Mem, table: Ppn, addr: u64, level: nat): Found
    decreases level
  {
    var at := PteAddr(table, addr, level);
    match Read(m, at, W64)
    case Err(_) => BusError
    case Ok(word) =>
      var p := Unpack(word);
      if !p.v || (!p.r && p.w) then BadEntry
      else if p.r || p.x then Leaf(at, p, level)
      else if level == 0 then BadEntry
      else FindLeaf(m, PtePpn(p), addr, level - 1)
  }

  /** Privilege, SUM and MXR checks; the accessed and dirty flags play no part. */
  predicate Permitted(mode: Mode, mstatus: u64, p: Perm, access: Access) {
    var sum := mstatus / 0x4_0000 % 2;
    var mxr := mstatus / 0x8_0000 % 2;
    && (mode == Supervisor && p.u ==> access != Instruction && sum != 0)
    && (mode == User ==> p.u)
    && (match access
        case Instruction => p.x
        case Store => p.w
        case Load => p.r || (mxr == 1 && p.x))
  }

  function PageFault(access: Access, addr: u64): Trap {
    match access
    case Instruction => InstructionPageFault(addr)
    case Load => LoadPageFault(addr)
    case Store => StorePageFault(addr)
  }

  function AccessFault(access: Access, addr: u64): Trap {
    match access
    case Instruction => InstructionAccessFault(addr)
    case Load => LoadAccessFault(addr)
    case Store => StoreAccessFault(addr)
  }

  /** A superpage must be aligned to its own size. */
  predicate SuperpageAligned(pte: Pte, level: nat) {
    level > 0 ==> PtePpn(pte) % PagesIn(level) == 0
  }

  /** Page number of the translation, low parts of a superpage taken from the address. */
  function ResultPpn(pte: Pte, level: nat, addr: u64): (r: Ppn)
  {
    var ppn := PtePpn(pte);
    PpnInRange(ppn, level, addr);
    ppn - ppn % PagesIn(level) + addr / 4096 % PagesIn(level)
  }

  lemma PpnInRange(ppn: Ppn, level: nat, addr: u64)
    ensures 0 <= ppn - ppn % PagesIn(level) + addr / 4096 % PagesIn(level) < 0x1000_0000_0000
  {
  }

  /** The entry after the walk has set the accessed flag and, for a store, the dirty flag. */
  function Marked(p: Pte, access: Access): Pte {
    p.(a := true, d := p.d || access == Store)
  }

  function PhysAddr(ppn: Ppn, addr: u64): u64 {
    ppn * 4096 + addr % 4096
  }

  /** Direct-mapped slot of a virtual page number. */
  function Slot(vpn: u64): (i: nat)
    ensures i < 64
  {
    vpn % 64
  }

  predicate Hit(e: TlbEntry, vpn: u64, asid: int) {
    e.valid && e.vpn == vpn && (e.perm.g || e.asid == asid)
  }

  datatype Outcome = Outcome(tlb: TlbView, mem: Mem, res: Result<u64>)

  /** The walk on a TLB miss: find the leaf, check it, mark it, and remember it. */
  function WalkAndFill(t: TlbView, m: Mem, c: Context, addr: u64, access: Access): Outcome
    requires Levels(c.satp) > 0
  {
    var levels := Levels(c.satp);
    match FindLeaf(m, Root(c.satp), addr, levels - 1)
    case BusError => Outcome(t, m, Err(AccessFault(access, addr)))
    case BadEntry => Outcome(t, m, Err(PageFault(access, addr)))
    case Leaf(at, pte, level) =>
      if !Permitted(c.mode, c.mstatus, PtePerm(pte), access) || !SuperpageAligned(pte, level) then
        Outcome(t, m, Err(PageFault(access, addr)))
      else
        var marked := Marked(pte, access);
        var written := if marked != pte then Write(m, at, W64, Pack(marked)) else Ok(m);
        if written.Err? then Outcome(t, m, Err(AccessFault(access, addr)))
        else
          var vpn := VpnFull(levels, addr);
          var ppn := ResultPpn(pte, level, addr);
          var e := TlbEntry(vpn, ppn, Asid(c.satp), PtePerm(marked), level, true);
          Outcome(t[Slot(vpn) := e], written.value, Ok(PhysAddr(ppn, addr)))
  }

  function Translate(t: TlbView, m: Mem, c: Context, addr: u64, access: Access): Outcome {
    var levels := Levels(c.satp);
    if c.mode == Machine || levels == 0 then Outcome(t, m, Ok(addr))
    else if !Canonical(levels, addr) then Outcome(t, m, Err(PageFault(access, addr)))
    else
      var e := t[Slot(VpnFull(levels, addr))];
      if Hit(e, VpnFull(levels, addr), Asid(c.satp)) then
        if Permitted(c.mode, c.mstatus, e.perm, access)
        then Outcome(t, m, Ok(PhysAddr(e.ppn, addr)))
        else Outcome(t, m, Err(PageFault(access, addr)))
      else WalkAndFill(t, m, c, addr, access)
  }
}
