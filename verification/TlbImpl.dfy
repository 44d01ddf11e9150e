/** The TLB as an array and the table walk as a loop, against their mathematical counterparts. */
module TlbImpl {
  import opened Base
  import opened Memory
  import opened Mmu

  /** Physical memory behind the bus. */
  class Bus {
    var mem: Mem

    constructor (m: Mem)
      ensures mem == m
    {
      mem := m;
    }

    method Load(addr: u64, w: Width) returns (r: Result<u64>)
      ensures r == Read(mem, addr, w)
    {
      r := Read(mem, addr, w);
    }

    method Store(addr: u64, w: Width, v: u64) returns (error: Option<Trap>)
      modifies this
      ensures match Write(old(mem), addr, w, v)
              case Ok(m) => error == None && mem == m
              case Err(t) => error == Some(t) && mem == old(mem)
    {
      match Write(mem, addr, w, v)
      case Ok(m) =>
        mem := m;
        error := None;
      case Err(t) => error := Some(t);
    }
  }

  class Tlb {
    const entries: array<TlbEntry>

    ghost predicate Valid()
    {
      entries.Length == 64
    }

    ghost function View(): TlbView
      reads entries
      requires Valid()
    {
      entries[..]
    }

    constructor ()
      ensures Valid() && fresh(entries) && View() == EmptyTlb()
    {
      entries := new TlbEntry[64](_ => EMPTY_ENTRY);
    }

    method Flush()
      requires Valid()
      modifies entries
      ensures View() == Flushed(old(View()))
    {
      for i := 0 to 64
        invariant forall k :: 0 <= k < i ==> entries[k] == old(entries[k]).(valid := false)
        invariant forall k :: i <= k < 64 ==> entries[k] == old(entries[k])
      {
        entries[i] := entries[i].(valid := false);
      }
    }

    method Lookup(vpn: u64, asid: int) returns (found: Option<TlbEntry>)
      requires Valid()
      ensures found == if Hit(View()[Slot(vpn)], vpn, asid) then Some(View()[Slot(vpn)]) else None
    {
      var e := entries[vpn % 64];
      found := if e.valid && e.vpn == vpn && (e.perm.g || e.asid == asid) then Some(e) else None;
    }

    method Insert(e: TlbEntry)
      requires Valid()
      modifies entries
      ensures View() == old(View())[Slot(e.vpn) := e]
    {
      entries[e.vpn % 64] := e;
    }
  }

  /** The outcome of a walk that ends at this leaf. */
  function LeafOutcome(t: TlbView, m: Mem, c: Context, addr: u64, access: Access, at: u64, pte: Pte,
                       level: nat): Outcome {
    if !Permitted(c.mode, c.mstatus, PtePerm(pte), access) || !SuperpageAligned(pte, level) then
      Outcome(t, m, Err(PageFault(access, addr)))
    else
      var marked := Marked(pte, access);
      var written := if marked != pte then Write(m, at, W64, Pack(marked)) else Ok(m);
      if written.Err? then Outcome(t, m, Err(AccessFault(access, addr)))
      else
        var vpn := VpnFull(Levels(c.satp), addr);
        var ppn := ResultPpn(pte, level, addr);
        Outcome(t[Slot(vpn) := TlbEntry(vpn, ppn, Asid(c.satp), PtePerm(marked), level, true)], written.value,
                Ok(PhysAddr(ppn, addr)))
  }

  lemma WalkEndsAt(t: TlbView, m: Mem, c: Context, addr: u64, access: Access, at: u64, pte: Pte, level: nat)
    requires Levels(c.satp) > 0 && FindLeaf(m, Root(c.satp), addr, Levels(c.satp) - 1) == Leaf(at, pte, level)
    ensures WalkAndFill(t, m, c, addr, access) == LeafOutcome(t, m, c, addr, access, at, pte, level)
  {
    hide FindLeaf, Unpack, Pack, Permitted, ResultPpn, VpnFull, Asid, PhysAddr, Write, SuperpageAligned, Levels, Root,
      Marked, PtePerm, Slot;
  }

  /** A leaf was found: check it, mark it, remember it. */
  method FinishWalk(bus: Bus, tlb: Tlb, c: Context, addr: u64, access: Access, at: u64, pte: Pte, level: nat)
    returns (r: Result<u64>)
    requires tlb.Valid()
    modifies bus, tlb.entries
    ensures Outcome(tlb.View(), bus.mem, r) == LeafOutcome(old(tlb.View()), old(bus.mem), c, addr, access, at, pte,
                                                           level)
  {
    hide Unpack, Pack, Permitted, ResultPpn, VpnFull, Asid, PhysAddr, Write, Levels, Slot, PageFault, AccessFault,
      SuperpageAligned, PtePerm, Marked;
    if !Permitted(c.mode, c.mstatus, PtePerm(pte), access) || !SuperpageAligned(pte, level) {
      return Err(PageFault(access, addr));
    }
    var marked := Mark(pte, access);
    var failed := WriteBack(bus, at, pte, marked);
    if failed {
      return Err(AccessFault(access, addr));
    }
    var ppn := ResultPpn(pte, level, addr);
    tlb.Insert(TlbEntry(VpnFull(Levels(c.satp), addr), ppn, Asid(c.satp), PtePerm(marked), level, true));
    return Ok(PhysAddr(ppn, addr));
  }

  /** Store the marked entry if it differs. */
  method WriteBack(bus: Bus, at: u64, pte: Pte, marked: Pte) returns (failed: bool)
    modifies bus
    ensures var written := if marked != pte then Write(old(bus.mem), at, W64, Pack(marked)) else Ok(old(bus.mem));
            failed == written.Err? && bus.mem == (if written.Ok? then written.value else old(bus.mem))
  {
    hide Pack, Write;
    failed := false;
    if marked != pte {
      var error := bus.Store(at, W64, Pack(marked));
      failed := error.Some?;
    }
  }

  /** Set the accessed flag, and the dirty flag for a store. */
  method Mark(pte: Pte, access: Access) returns (marked: Pte)
    ensures marked == Marked(pte, access)
  {
    marked := pte;
    if !marked.a {
      marked := marked.(a := true);
    }
    if access == Store && !marked.d {
      marked := marked.(d := true);
    }
  }

  /** A walk that ends without a leaf reports the fault and changes nothing. */
  lemma WalkFails(t: TlbView, m: Mem, c: Context, addr: u64, access: Access)
    requires Levels(c.satp) > 0
    ensures var f := FindLeaf(m, Root(c.satp), addr, Levels(c.satp) - 1);
            && (f.BusError? ==> WalkAndFill(t, m, c, addr, access) == Outcome(t, m, Err(AccessFault(access, addr))))
            && (f.BadEntry? ==> WalkAndFill(t, m, c, addr, access) == Outcome(t, m, Err(PageFault(access, addr))))
  {
    hide FindLeaf, Unpack, Pack, Permitted, ResultPpn, VpnFull, Asid, PhysAddr, Write, SuperpageAligned, Levels, Root;
  }

  /** The walk loop, from the root table down. */
  method Walk(bus: Bus, tlb: Tlb, c: Context, addr: u64, access: Access) returns (r: Result<u64>)
    requires tlb.Valid() && Levels(c.satp) > 0
    modifies bus, tlb.entries
    ensures Outcome(tlb.View(), bus.mem, r) == WalkAndFill(old(tlb.View()), old(bus.mem), c, addr, access)
  {
    hide Unpack, Pack, Permitted, ResultPpn, VpnFull, Asid, PhysAddr, Write, PtePpn, PteAddr, SuperpageAligned, Levels,
      Root, LeafOutcome, WalkAndFill;
    var table, i: nat := Root(c.satp), Levels(c.satp) - 1;
    WalkFails(tlb.View(), bus.mem, c, addr, access);
    while true
      invariant bus.mem == old(bus.mem) && tlb.View() == old(tlb.View())
      invariant FindLeaf(bus.mem, table, addr, i) == FindLeaf(bus.mem, Root(c.satp), addr, Levels(c.satp) - 1)
      decreases i
    {
      var at := PteAddr(table, addr, i);
      var word := bus.Load(at, W64);
      if word.Err? {
        return Err(AccessFault(access, addr));
      }
      var p := Unpack(word.value);
      if !p.v || (!p.r && p.w) {
        return Err(PageFault(access, addr));
      }
      if !p.r && !p.x {
        if i == 0 {
          return Err(PageFault(access, addr));
        }
        table := PtePpn(p);
        i := i - 1;
        continue;
      }
      WalkEndsAt(tlb.View(), bus.mem, c, addr, access, at, p, i);
      r := FinishWalk(bus, tlb, c, addr, access, at, p, i);
      return;
    }
  }

  /** Address translation: TLB hit or walk. */
  method TranslateAddr(bus: Bus, tlb: Tlb, c: Context, addr: u64, access: Access) returns (r: Result<u64>)
    requires tlb.Valid()
    modifies bus, tlb.entries
    ensures Outcome(tlb.View(), bus.mem, r) == Translate(old(tlb.View()), old(bus.mem), c, addr, access)
  {
    hide Unpack, Pack, Permitted, ResultPpn, VpnFull, Asid, PhysAddr, Write, WalkAndFill, Canonical, Levels;
    if c.mode == Machine || Levels(c.satp) == 0 {
      return Ok(addr);
    }
    if !Canonical(Levels(c.satp), addr) {
      return Err(PageFault(access, addr));
    }
    var found := tlb.Lookup(VpnFull(Levels(c.satp), addr), Asid(c.satp));
    if found.Some? {
      if Permitted(c.mode, c.mstatus, found.value.perm, access) {
        return Ok(PhysAddr(found.value.ppn, addr));
      }
      return Err(PageFault(access, addr));
    }
    r := Walk(bus, tlb, c, addr, access);
  }
}
