/** Traps and returns: delivery agrees with selection, privilege never drops on a trap, and well-nested
    traps unwind. */
module TrapProofs {
  import opened Base
  import opened Bits
  import opened HartState
  import opened Traps

  // ---- mstatus bit by bit -----------------------------------------------------------------------------------

  lemma SetBitBit(x: u64, k: nat, b: bool, j: nat)
    requires k < 64
    ensures Bit(SetBit(x, k, b), j) == if j == k then b else Bit(x, j)
  {
    BitOfWithBit(x, k, b, j);
  }

  /** Entry to the supervisor moves SIE to SPIE, clears SIE and records the mode; nothing else changes. */
  lemma EnterSBits(m: u64, from: Mode, j: nat)
    ensures Bit(StatusEnterS(m, from), j) ==
            if j == SPP_BIT then from == Supervisor
            else if j == SIE_BIT then false
            else if j == SPIE_BIT then Bit(m, SIE_BIT)
            else Bit(m, j)
  {
    hide SetBit, Bit;
    var a := SetBit(m, SPIE_BIT, Bit(m, SIE_BIT));
    var b := SetBit(a, SIE_BIT, false);
    SetBitBit(m, SPIE_BIT, Bit(m, SIE_BIT), j);
    SetBitBit(a, SIE_BIT, false, j);
    SetBitBit(b, SPP_BIT, from == Supervisor, j);
  }

  lemma EnterMBits(m: u64, from: Mode, j: nat)
    ensures Bit(StatusEnterM(m, from), j) ==
            if j == MPP_HIGH then from == Machine
            else if j == MPP_LOW then from != User
            else if j == MIE_BIT then false
            else if j == MPIE_BIT then Bit(m, MIE_BIT)
            else Bit(m, j)
  {
    hide SetBit, Bit;
    var a := SetBit(m, MPIE_BIT, Bit(m, MIE_BIT));
    var b := SetBit(a, MIE_BIT, false);
    var c := SetBit(b, MPP_LOW, from != User);
    SetBitBit(m, MPIE_BIT, Bit(m, MIE_BIT), j);
    SetBitBit(a, MIE_BIT, false, j);
    SetBitBit(b, MPP_LOW, from != User, j);
    SetBitBit(c, MPP_HIGH, from == Machine, j);
  }

  lemma MretBits(m: u64, j: nat)
    ensures Bit(StatusMret(m), j) ==
            if j == MPP_HIGH || j == MPP_LOW then false
            else if j == MPIE_BIT then true
            else if j == MIE_BIT then Bit(m, MPIE_BIT)
            else Bit(m, j)
  {
    hide SetBit, Bit;
    var a := SetBit(m, MIE_BIT, Bit(m, MPIE_BIT));
    var b := SetBit(a, MPIE_BIT, true);
    var c := SetBit(b, MPP_LOW, false);
    SetBitBit(m, MIE_BIT, Bit(m, MPIE_BIT), j);
    SetBitBit(a, MPIE_BIT, true, j);
    SetBitBit(b, MPP_LOW, false, j);
    SetBitBit(c, MPP_HIGH, false, j);
  }

  lemma SretBits(m: u64, j: nat)
    ensures Bit(StatusSret(m), j) ==
            if j == SPP_BIT then false
            else if j == SPIE_BIT then true
            else if j == SIE_BIT then Bit(m, SPIE_BIT)
            else Bit(m, j)
  {
    hide SetBit, Bit;
    var a := SetBit(m, SIE_BIT, Bit(m, SPIE_BIT));
    var b := SetBit(a, SPIE_BIT, true);
    SetBitBit(m, SIE_BIT, Bit(m, SPIE_BIT), j);
    SetBitBit(a, SPIE_BIT, true, j);
    SetBitBit(b, SPP_BIT, false, j);
  }

  // ---- Privilege ----------------------------------------------------------------------------------------------

  /** A trap never lowers the privilege level, and one taken in Machine mode stays there. */
  lemma TrapKeepsPrivilege(h: Hart, t: Trap, pc: u64)
    ensures HandleTrap(h, t, pc).mode.PrivilegeLevel() >= h.mode.PrivilegeLevel()
    ensures h.mode == Machine ==> HandleTrap(h, t, pc).mode == Machine
  {
    hide StatusEnterS, StatusEnterM, TrapVector, CauseWord, Bit, CauseOf;
  }

  // ---- Interrupt selection and delivery ---------------------------------------------------------------------------

  /** Interrupt `code` is pending in mip (0x344) and enabled in mie (0x304), and what mideleg (0x303) delegates
      it to is interruptible by SIE or MIE of mstatus (0x300): the architecture's condition for taking it. */
  predicate Deliverable(h: Hart, code: nat) {
    && Bit(h.csrs[0x344], code) && Bit(h.csrs[0x304], code)
    && if Bit(h.csrs[0x303], code)
       then h.mode == User || (h.mode == Supervisor && Bit(h.csrs[0x300], 1))
       else h.mode != Machine || Bit(h.csrs[0x300], 3)
  }

  /** An interrupt `check_pending_interrupt` can report: a machine one not delegated, a supervisor one delegated. */
  predicate Candidate(h: Hart, code: nat) {
    || ((code == 11 || code == 3 || code == 7) && !Bit(h.csrs[CSR_MIDELEG], code))
    || ((code == 9 || code == 1 || code == 5) && Bit(h.csrs[CSR_MIDELEG], code))
  }

  /** Position in the architecture's priority order MEI, MSI, MTI, SEI, SSI, STI. */
  function Rank(code: nat): nat {
    if code == 11 then 0 else if code == 3 then 1 else if code == 7 then 2
    else if code == 9 then 3 else if code == 1 then 4 else 5
  }

  lemma SupervisorMask()
    ensures Bit(S_INTERRUPTS, 9) && Bit(S_INTERRUPTS, 1) && Bit(S_INTERRUPTS, 5)
  {
    assert Bit(0x222, 9) == Bit(0x111, 8) == Bit(0x88, 7) == Bit(0x44, 6) == Bit(0x22, 5) == Bit(0x11, 4);
    assert Bit(0x11, 4) == Bit(0x8, 3) == Bit(0x4, 2) == Bit(0x2, 1) == Bit(0x1, 0);
    assert Bit(0x222, 1) == Bit(0x111, 0);
    assert Bit(0x222, 5) == Bit(0x111, 4) == Bit(0x88, 3) == Bit(0x44, 2) == Bit(0x22, 1) == Bit(0x11, 0);
  }

  lemma SelectableIsDeliverable(h: Hart, code: nat)
    requires code == 11 || code == 3 || code == 7 || code == 9 || code == 1 || code == 5
    ensures (Candidate(h, code) && Deliverable(h, code))
            == if code == 11 || code == 3 || code == 7 then EnabledM(h) && PendingM(h, code)
               else EnabledS(h) && PendingS(h, code)
  {
    SupervisorMask();
    BitOfAnd(h.csrs[CSR_MIE], S_INTERRUPTS, code);
    hide Bit;
  }

  /** `t` is the interrupt of highest priority among the deliverable candidates. */
  ghost predicate Highest(h: Hart, t: Trap) {
    var c := CauseOf(t);
    && c.Architectural? && c.interrupt && Candidate(h, c.code) && Deliverable(h, c.code)
    && forall code: nat :: Candidate(h, code) && Deliverable(h, code) ==> Rank(c.code) <= Rank(code)
  }

  /** Selection: an interrupt is reported exactly if some candidate is deliverable, and then the one of
      highest priority. */
  lemma SelectsHighest(h: Hart)
    ensures CheckPendingInterrupt(h).None? <==> forall code: nat :: Candidate(h, code) ==> !Deliverable(h, code)
    ensures CheckPendingInterrupt(h).Some? ==> Highest(h, CheckPendingInterrupt(h).value)
  {
    hide Deliverable, Candidate, PendingM, PendingS, EnabledM, EnabledS, Bit;
    forall code: nat | Candidate(h, code)
      ensures code == 11 || code == 3 || code == 7 || code == 9 || code == 1 || code == 5
    {
      CandidateCodes(h, code);
    }
    SelectableIsDeliverable(h, 11);
    SelectableIsDeliverable(h, 3);
    SelectableIsDeliverable(h, 7);
    SelectableIsDeliverable(h, 9);
    SelectableIsDeliverable(h, 1);
    SelectableIsDeliverable(h, 5);
  }

  lemma CandidateCodes(h: Hart, code: nat)
    requires Candidate(h, code)
    ensures code == 11 || code == 3 || code == 7 || code == 9 || code == 1 || code == 5
  {
    hide Bit;
  }

  predicate Standard(code: nat) {
    code == 1 || code == 3 || code == 5 || code == 7 || code == 9 || code == 11
  }

  /** A hart in User mode with this delegation and one interrupt pending and enabled. */
  function OnlyPending(mideleg: u64, code: nat): Hart
    requires code < 64
  {
    var one := SetBit(0, code, true);
    Hart(seq(32, _ => 0), 0, None, seq(4096, _ => 0)[CSR_MIP := one][CSR_MIE := one][CSR_MIDELEG := mideleg], User)
  }

  lemma {:induction false} ZeroBits(j: nat)
    ensures !Bit(0, j)
    decreases j
  {
    if j > 0 {
      ZeroBits(j - 1);
    }
  }

  /** A standard interrupt that is not a candidate is not reported although it is deliverable. */
  lemma NeverTaken(mideleg: u64, code: nat)
    requires Standard(code) && !Candidate(OnlyPending(mideleg, code), code)
    ensures Deliverable(OnlyPending(mideleg, code), code) && CheckPendingInterrupt(OnlyPending(mideleg, code)).None?
  {
    hide Bit, SetBit, CheckPendingInterrupt;
    var h := OnlyPending(mideleg, code);
    forall j | 0 <= j < 64
      ensures Bit(h.csrs[CSR_MIP], j) == (j == code) && Bit(h.csrs[CSR_MIE], j) == (j == code)
    {
      SetBitBit(0, code, true, j);
      ZeroBits(j);
    }
    forall c | Candidate(h, c)
      ensures !Deliverable(h, c)
    {
      CandidateCodes(h, c);
    }
    SelectsHighest(h);
  }

  /** A supervisor software interrupt left to Machine mode, pending and enabled in User mode, is not taken. */
  lemma SoftwareInterruptIgnored()
    ensures var h := OnlyPending(0, 1); Deliverable(h, 1) && CheckPendingInterrupt(h).None?
  {
    hide Bit, SetBit, CheckPendingInterrupt, Deliverable;
    ZeroBits(1);
    NeverTaken(0, 1);
  }

  /** With this delegation, an interrupt is reported exactly if a standard one is deliverable. */
  ghost predicate TakesAll(mideleg: u64) {
    forall h: Hart :: h.csrs[CSR_MIDELEG] == mideleg ==>
      (CheckPendingInterrupt(h).Some? <==> exists code :: Standard(code) && Deliverable(h, code))
  }

  /** Every deliverable interrupt is taken if and only if exactly the supervisor interrupts are delegated. */
  lemma TakesAllExact(mideleg: u64)
    ensures TakesAll(mideleg)
            <==> && Bit(mideleg, 1) && Bit(mideleg, 5) && Bit(mideleg, 9)
                 && !Bit(mideleg, 3) && !Bit(mideleg, 7) && !Bit(mideleg, 11)
  {
    hide Bit, SetBit, CheckPendingInterrupt, Deliverable;
    forall code: nat | Standard(code)
      ensures TakesAll(mideleg) ==> Candidate(OnlyPending(mideleg, code), code)
    {
      var h := OnlyPending(mideleg, code);
      if !Candidate(h, code) {
        NeverTaken(mideleg, code);
        assert h.csrs[CSR_MIDELEG] == mideleg;
      }
    }
    assert Standard(1) && Standard(3) && Standard(5) && Standard(7) && Standard(9) && Standard(11);
    forall h: Hart | h.csrs[CSR_MIDELEG] == mideleg
      ensures CheckPendingInterrupt(h).Some? <==> exists code :: Candidate(h, code) && Deliverable(h, code)
    {
      SelectsHighest(h);
    }
  }

  /** `u` has taken interrupt `t` at `pc` in the mode it is delegated to, and has nothing more to take. */
  ghost predicate Delivered(h: Hart, t: Trap, pc: u64, u: Hart) {
    && CauseOf(t).Architectural? && CauseOf(t).interrupt
    && var code := CauseOf(t).code;
       && u.mode == (if Bit(h.csrs[CSR_MIDELEG], code) then Supervisor else Machine)
       && u.csrs[if u.mode == Machine then CSR_MCAUSE else CSR_SCAUSE] == 0x8000_0000_0000_0000 + code
       && u.csrs[if u.mode == Machine then CSR_MEPC else CSR_SEPC] == pc
       && CheckPendingInterrupt(u).None?
       && u.csrs[CSR_MIP] == h.csrs[CSR_MIP] && u.csrs[CSR_MIE] == h.csrs[CSR_MIE]
       && u.csrs[CSR_MIDELEG] == h.csrs[CSR_MIDELEG]
  }

  /** A reported interrupt is delivered to the mode whose enables were tested, with the selected code as
      cause; afterwards nothing more is reported, and pending, enable and delegation bits are as before. */
  lemma DeliveryAgrees(h: Hart, pc: u64)
    requires CheckPendingInterrupt(h).Some?
    ensures Delivered(h, CheckPendingInterrupt(h).value, pc, HandleTrap(h, CheckPendingInterrupt(h).value, pc))
  {
    hide Bit, And, StatusEnterS, StatusEnterM, TrapVector;
    EnterSBits(h.csrs[CSR_MSTATUS], h.mode, SIE_BIT);
    EnterMBits(h.csrs[CSR_MSTATUS], h.mode, MIE_BIT);
  }

  // ---- Unwinding --------------------------------------------------------------------------------------------------

  /** What software does while no trap is taken leaves the hart in `after`; a handled trap is its entry,
      the handler's run, and the return instruction of the handler's mode. */
  datatype Item = Work(after: Hart) | Handled(trap: Trap, pc: u64, body: seq<Item>)

  /** The return instruction of the current mode. */
  function Return(h: Hart): Hart {
    if h.mode == Machine then Mret(h) else if h.mode == Supervisor then Sret(h) else h
  }

  function Exec(h: Hart, items: seq<Item>): Hart
    decreases items
  {
    if items == [] then h
    else
      match items[0]
      case Work(after) => Exec(after, items[1..])
      case Handled(t, pc, body) => Exec(Return(Exec(HandleTrap(h, t, pc), body)), items[1..])
  }

  /** The fields in which a trap to `target` saves the interrupted context. */
  predicate SavedSame(target: Mode, h: Hart, u: Hart) {
    if target == Machine then
      && u.csrs[CSR_MEPC] == h.csrs[CSR_MEPC]
      && Bit(u.csrs[CSR_MSTATUS], MPIE_BIT) == Bit(h.csrs[CSR_MSTATUS], MPIE_BIT)
      && Bit(u.csrs[CSR_MSTATUS], MPP_LOW) == Bit(h.csrs[CSR_MSTATUS], MPP_LOW)
      && Bit(u.csrs[CSR_MSTATUS], MPP_HIGH) == Bit(h.csrs[CSR_MSTATUS], MPP_HIGH)
    else
      && u.csrs[CSR_SEPC] == h.csrs[CSR_SEPC]
      && Bit(u.csrs[CSR_MSTATUS], SPIE_BIT) == Bit(h.csrs[CSR_MSTATUS], SPIE_BIT)
      && Bit(u.csrs[CSR_MSTATUS], SPP_BIT) == Bit(h.csrs[CSR_MSTATUS], SPP_BIT)
  }

  /** Which target modes have a trap outstanding. */
  datatype Outstanding = Outstanding(machine: bool, supervisor: bool)

  predicate SavedKept(out: Outstanding, h: Hart, u: Hart) {
    (out.machine ==> SavedSame(Machine, h, u)) && (out.supervisor ==> SavedSame(Supervisor, h, u))
  }

  function TargetOf(h: Hart, t: Trap): Mode
    requires CauseOf(t).Architectural?
  {
    if Delegated(h, CauseOf(t).interrupt, CauseOf(t).code) then Supervisor else Machine
  }

  function Plus(out: Outstanding, target: Mode): Outstanding {
    if target == Machine then out.(machine := true) else out.(supervisor := true)
  }

  /** At most one trap per target mode is outstanding, and between traps software changes neither the
      mode nor the saved fields of outstanding traps. */
  ghost predicate WellNested(h: Hart, items: seq<Item>, out: Outstanding)
    decreases items
  {
    if items == [] then true
    else
      match items[0]
      case Work(after) => after.mode == h.mode && SavedKept(out, h, after) && WellNested(after, items[1..], out)
      case Handled(t, pc, body) =>
        && CauseOf(t).Architectural?
        && var target := TargetOf(h, t);
           && !(if target == Machine then out.machine else out.supervisor)
           && WellNested(HandleTrap(h, t, pc), body, Plus(out, target))
           && WellNested(Return(Exec(HandleTrap(h, t, pc), body)), items[1..], out)
  }

  /** The enable bit a trap to `target` clears. */
  function EnableBit(target: Mode): nat {
    if target == Machine then MIE_BIT else SIE_BIT
  }

  /** Every trap of the run, at every depth, was undone by its return: same pc, mode and enable bit as
      when it was taken. */
  ghost predicate AllRestored(h: Hart, items: seq<Item>)
    decreases items
  {
    if items == [] then true
    else
      match items[0]
      case Work(after) => AllRestored(after, items[1..])
      case Handled(t, pc, body) =>
        var entered := HandleTrap(h, t, pc);
        var r := Return(Exec(entered, body));
        && r.pc == pc && r.mode == h.mode
        && (CauseOf(t).Architectural? ==>
              Bit(r.csrs[CSR_MSTATUS], EnableBit(TargetOf(h, t)))
                  == Bit(h.csrs[CSR_MSTATUS], EnableBit(TargetOf(h, t))))
        && AllRestored(entered, body) && AllRestored(r, items[1..])
  }

  /** Entering `target` saves the interrupted context and keeps what other outstanding traps saved. */
  lemma EntrySaves(h: Hart, t: Trap, pc: u64, out: Outstanding)
    requires CauseOf(t).Architectural?
    ensures var target, u := TargetOf(h, t), HandleTrap(h, t, pc);
            && u.mode == target
            && (target == Machine ==>
                  && u.csrs[CSR_MEPC] == pc && Bit(u.csrs[CSR_MSTATUS], MPIE_BIT) == Bit(h.csrs[CSR_MSTATUS], MIE_BIT)
                  && MppMode(u.csrs[CSR_MSTATUS]) == h.mode && SavedSame(Supervisor, h, u))
            && (target == Supervisor ==>
                  && u.csrs[CSR_SEPC] == pc && Bit(u.csrs[CSR_MSTATUS], SPIE_BIT) == Bit(h.csrs[CSR_MSTATUS], SIE_BIT)
                  && Bit(u.csrs[CSR_MSTATUS], SPP_BIT) == (h.mode == Supervisor) && h.mode != Machine
                     && SavedSame(Machine, h, u))
  {
    hide Bit, StatusEnterS, StatusEnterM, TrapVector, CauseWord, CauseOf;
    var m := h.csrs[CSR_MSTATUS];
    EnterMBits(m, h.mode, MPIE_BIT);
    EnterMBits(m, h.mode, MPP_LOW);
    EnterMBits(m, h.mode, MPP_HIGH);
    EnterMBits(m, h.mode, SPIE_BIT);
    EnterMBits(m, h.mode, SPP_BIT);
    EnterSBits(m, h.mode, SPIE_BIT);
    EnterSBits(m, h.mode, SPP_BIT);
    EnterSBits(m, h.mode, MPIE_BIT);
    EnterSBits(m, h.mode, MPP_LOW);
    EnterSBits(m, h.mode, MPP_HIGH);
  }

  /** Returning restores what the saved fields hold and keeps the other mode's saved fields. */
  lemma ReturnRestores(u: Hart)
    requires u.mode != User
    ensures var r := Return(u);
            && (u.mode == Machine ==>
                  && r.pc == u.csrs[CSR_MEPC] && r.mode == MppMode(u.csrs[CSR_MSTATUS])
                  && Bit(r.csrs[CSR_MSTATUS], MIE_BIT) == Bit(u.csrs[CSR_MSTATUS], MPIE_BIT)
                     && SavedSame(Supervisor, u, r))
            && (u.mode == Supervisor ==>
                  && r.pc == u.csrs[CSR_SEPC] && r.mode == (if Bit(u.csrs[CSR_MSTATUS], SPP_BIT) then Supervisor
                                                            else User)
                  && Bit(r.csrs[CSR_MSTATUS], SIE_BIT) == Bit(u.csrs[CSR_MSTATUS], SPIE_BIT)
                     && SavedSame(Machine, u, r))
  {
    hide Bit, StatusMret, StatusSret, MppMode;
    var m := u.csrs[CSR_MSTATUS];
    MretBits(m, MIE_BIT);
    MretBits(m, SPIE_BIT);
    MretBits(m, SPP_BIT);
    SretBits(m, SIE_BIT);
    SretBits(m, MPIE_BIT);
    SretBits(m, MPP_LOW);
    SretBits(m, MPP_HIGH);
  }

  /** One trap, its handler's run and its return. */
  lemma PairRestores(h: Hart, t: Trap, pc: u64, u: Hart, out: Outstanding)
    requires CauseOf(t).Architectural? && !(if TargetOf(h, t) == Machine then out.machine else out.supervisor)
    requires var entered := HandleTrap(h, t, pc);
             u.mode == entered.mode && SavedKept(Plus(out, TargetOf(h, t)), entered, u)
    ensures var r := Return(u);
            && r.pc == pc && r.mode == h.mode && SavedKept(out, h, r)
            && Bit(r.csrs[CSR_MSTATUS], EnableBit(TargetOf(h, t)))
               == Bit(h.csrs[CSR_MSTATUS], EnableBit(TargetOf(h, t)))
  {
    hide Bit, HandleTrap, Return, CauseOf, Delegated;
    EntrySaves(h, t, pc, out);
    ReturnRestores(u);
  }

  /** Well-nested traps unwind: over any run with at most one outstanding trap per target mode, every
      return restores pc, mode and enable bit, and the saved fields of outer traps survive. */
  lemma {:induction false} TrapsUnwind(h: Hart, items: seq<Item>, out: Outstanding)
    requires WellNested(h, items, out)
    ensures AllRestored(h, items)
    ensures Exec(h, items).mode == h.mode && SavedKept(out, h, Exec(h, items))
    decreases items
  {
    hide HandleTrap, Return, TargetOf, CauseOf, Bit;
    if items != [] {
      match items[0]
      case Work(after) =>
        TrapsUnwind(after, items[1..], out);
      case Handled(t, pc, body) =>
        var entered := HandleTrap(h, t, pc);
        TrapsUnwind(entered, body, Plus(out, TargetOf(h, t)));
        var u := Exec(entered, body);
        PairRestores(h, t, pc, u, out);
        TrapsUnwind(Return(u), items[1..], out);
    }
  }
}
