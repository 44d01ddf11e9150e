/** Two copies of a machine that differ only in TLB contents and page-table marks stay that way when
    both execute the same instruction, as long as it leaves the page tables alone. */
module Twins {
  import opened Base
  import opened Memory
  import M = Mmu
  import P = MmuProofs
  import D = Decoder
  import opened HartState
  import T = Traps
  import I = Interpreter
  import F = FetchProofs

  /** Same hart, same memory up to marks, code words as in `m0`, TLBs that fit. */
  ghost predicate Twin(pt: Tables, code: iset<int>, m0: Mem, u: I.State, v: I.State) {
    && u.hart == v.hart
    && Agree(pt, Outside(pt), u.mem, v.mem)
    && Agree(pt, code, m0, v.mem)
    && F.Fit(pt, u) && F.Fit(pt, v)
  }

  ghost predicate TwinSteps(pt: Tables, code: iset<int>, m0: Mem, x: I.Step, y: I.Step) {
    x.err == y.err && Twin(pt, code, m0, x.next, y.next)
  }

  lemma SameHart(pt: Tables, code: iset<int>, m0: Mem, u: I.State, v: I.State)
    requires Twin(pt, code, m0, u, v)
    ensures u.hart == v.hart
  {
  }

  /** Replacing the hart on both sides changes nothing about memory, nor about the TLBs if satp stays. */
  lemma TwinHart(pt: Tables, code: iset<int>, m0: Mem, u: I.State, v: I.State, h: Hart)
    requires Twin(pt, code, m0, u, v) && h.csrs[CSR_SATP] == u.hart.csrs[CSR_SATP]
    ensures Twin(pt, code, m0, u.(hart := h), v.(hart := h))
  {
    hide Agree, P.TablesIn, P.Coherent;
  }

  lemma TrapKeepsSatp(h: Hart, t: Trap, pc: u64)
    ensures T.HandleTrap(h, t, pc).csrs[CSR_SATP] == h.csrs[CSR_SATP]
  {
    hide T.StatusEnterM, T.StatusEnterS, T.CauseWord, T.TrapVector, T.Delegated;
  }

  lemma TwinFault(pt: Tables, code: iset<int>, m0: Mem, u: I.State, v: I.State, t: Trap)
    requires Twin(pt, code, m0, u, v)
    ensures TwinSteps(pt, code, m0, I.Fault(u, t), I.Fault(v, t))
  {
    TrapKeepsSatp(u.hart, t, u.hart.pc);
    hide T.HandleTrap, Agree, F.Fit;
    TwinHart(pt, code, m0, u, v, T.HandleTrap(u.hart, t, u.hart.pc));
  }

  lemma TwinRetire(pt: Tables, code: iset<int>, m0: Mem, u: I.State, v: I.State, pc: u64)
    requires Twin(pt, code, m0, u, v)
    ensures TwinSteps(pt, code, m0, I.Retire(u, pc), I.Retire(v, pc))
  {
    hide Agree, F.Fit;
    TwinHart(pt, code, m0, u, v, u.hart.(pc := pc));
  }

  lemma TwinSetReg(pt: Tables, code: iset<int>, m0: Mem, u: I.State, v: I.State, rd: D.Reg, x: u64)
    requires Twin(pt, code, m0, u, v)
    ensures Twin(pt, code, m0, I.SetReg(u, rd, x), I.SetReg(v, rd, x))
  {
    hide Agree, F.Fit;
    TwinHart(pt, code, m0, u, v, u.hart.(regs := WriteReg(u.hart.regs, rd, x)));
  }

  /** Both translate an address to the same result and stay twins. */
  lemma TwinTranslate(pt: Tables, code: iset<int>, m0: Mem, u: I.State, v: I.State, addr: u64, access: M.Access)
    requires Twin(pt, code, m0, u, v) && F.Disjoint(pt, code)
    requires F.Tabled(pt, v)
    ensures I.Translate(u, addr, access).res == I.Translate(v, addr, access).res
    ensures I.Translate(v, addr, access).res == P.Resolve(v.mem, I.ContextOf(v.hart), addr, access)
    ensures Twin(pt, code, m0, I.Translate(u, addr, access).s, I.Translate(v, addr, access).s)
    ensures I.Translate(u, addr, access).s.hart == u.hart
  {
    hide I.Translate, P.Resolve, Agree, F.Fit, F.Tabled;
    TwinTabled(pt, code, m0, u, v);
    F.TranslateOk(pt, u, addr, access);
    F.TranslateOk(pt, v, addr, access);
    AgreeSymmetric(pt, Outside(pt), u.mem, v.mem);
    F.ResolveSame(pt, Outside(pt), v, u.mem, addr, access);
    MarkedTwins(pt, code, m0, u, v, I.Translate(u, addr, access).s, I.Translate(v, addr, access).s);
  }

  /** What covers one side's tables covers the other's. */
  lemma TwinTabled(pt: Tables, code: iset<int>, m0: Mem, u: I.State, v: I.State)
    requires Twin(pt, code, m0, u, v) && F.Tabled(pt, v)
    ensures F.Sane(pt, u) && F.Sane(pt, v)
  {
    AgreeSymmetric(pt, Outside(pt), u.mem, v.mem);
    F.SaneAgrees(pt, Outside(pt), v, u.mem);
    hide P.TablesIn, P.Coherent, Agree, F.Tabled;
  }

  /** Marking on either side keeps the memories agreeing. */
  lemma MarkedTwins(pt: Tables, code: iset<int>, m0: Mem, u: I.State, v: I.State, u': I.State, v': I.State)
    requires Twin(pt, code, m0, u, v) && F.Disjoint(pt, code)
    requires F.OnlyMarked(pt, u, u') && F.OnlyMarked(pt, v, v')
    ensures Twin(pt, code, m0, u', v')
  {
    AgreeSymmetric(pt, Outside(pt), u.mem, u'.mem);
    AgreeTransitive(pt, Outside(pt), u'.mem, u.mem, v.mem);
    AgreeTransitive(pt, Outside(pt), u'.mem, v.mem, v'.mem);
    CodeOutside(pt, code);
    AgreeWeaken(pt, Outside(pt), code, v.mem, v'.mem);
    AgreeTransitive(pt, code, m0, v.mem, v'.mem);
    hide Agree, F.Fit, F.Tabled;
  }

  lemma CodeOutside(pt: Tables, code: iset<int>)
    requires F.Disjoint(pt, code)
    ensures code <= Outside(pt)
  {
    forall w | w in code
      ensures w in Outside(pt)
    {
      assert w !in pt.loose;
    }
  }

  /** Both read the same value outside the page tables. */
  lemma TwinRead(pt: Tables, code: iset<int>, m0: Mem, u: I.State, v: I.State, a: u64, w: Width)
    requires Twin(pt, code, m0, u, v) && Word(a) !in pt.loose
    ensures Read(u.mem, a, w) == Read(v.mem, a, w)
  {
    ReadAgrees(pt, Outside(pt), u.mem, v.mem, a, w);
  }

  /** Both accept or refuse the same store, and stay twins if it hits neither tables nor code. */
  lemma TwinWrite(pt: Tables, code: iset<int>, m0: Mem, u: I.State, v: I.State, a: u64, w: Width, x: u64)
    requires Twin(pt, code, m0, u, v) && !pt.Has(Word(a)) && Word(a) !in code
    ensures Write(u.mem, a, w, x).Ok? == Write(v.mem, a, w, x).Ok?
    ensures Write(u.mem, a, w, x).Err? ==> Write(u.mem, a, w, x) == Write(v.mem, a, w, x)
    ensures Write(u.mem, a, w, x).Ok? ==>
              Twin(pt, code, m0, u.(mem := Write(u.mem, a, w, x).value), v.(mem := Write(v.mem, a, w, x).value))
  {
    StoreBoth(pt, u.mem, v.mem, a, w, x);
    if Write(u.mem, a, w, x).Ok? {
      StoreOutside(pt, code, u.mem, a, w, x);
      StoreOutside(pt, code, v.mem, a, w, x);
      var m, n := Write(u.mem, a, w, x).value, Write(v.mem, a, w, x).value;
      F.SaneAgrees(pt, code, u, m);
      F.SaneAgrees(pt, code, v, n);
      AgreeTransitive(pt, code, m0, v.mem, n);
      hide Agree, F.Fit, Write;
    }
  }

  /** With empty TLBs satp may change. */
  lemma TwinFlush(pt: Tables, code: iset<int>, m0: Mem, u: I.State, v: I.State, h: Hart)
    requires Twin(pt, code, m0, u, v)
    ensures Twin(pt, code, m0, u.(hart := h, tlb := M.Flushed(u.tlb)), v.(hart := h, tlb := M.Flushed(v.tlb)))
  {
    hide Agree, P.EntryGood, P.TablesIn;
  }

  // ---- Instructions ------------------------------------------------------------------------------------

  /** The data access of an instruction, if it performs one. */
  datatype DataAccess = NoAccess | Accesses(addr: u64, access: M.Access, writes: bool)

  function AccessOf(op: D.Op, r: Regs): DataAccess {
    match op
    case Load(_, rs1, imm, _) => Accesses(WrappingAdd(ReadReg(r, rs1), ToU64(imm)), M.Load, false)
    case Store(rs1, _, imm, _) => Accesses(WrappingAdd(ReadReg(r, rs1), ToU64(imm)), M.Store, true)
    case Amo(_, rs1, _, _, funct5, _, _) => Accesses(ReadReg(r, rs1), M.Load, funct5 != 0x02)
    case _ => NoAccess
  }

  /** The instruction writes neither page-table words nor code words and reads no page-table word that a
      walk could still mark.  The timer register read by `time` counts as a read. */
  ghost predicate DataQuiet(pt: Tables, code: iset<int>, s: I.State, op: D.Op) {
    && (op.System? ==> Word(I.MTIME) !in pt.loose)
    && var a := AccessOf(op, s.hart.regs);
       a.Accesses? ==>
         var res := P.Resolve(s.mem, I.ContextOf(s.hart), a.addr, a.access);
         res.Ok? ==> && Word(res.value) !in pt.loose
                     && (a.writes ==> !pt.Has(Word(res.value)) && Word(res.value) !in code)
  }

  lemma QuietTimer(pt: Tables, code: iset<int>, s: I.State, op: D.Op)
    requires DataQuiet(pt, code, s, op) && op.System?
    ensures Word(I.MTIME) !in pt.loose
  {
  }

  /** Instructions that access memory or control registers, and the functions that execute them. */
  lemma ExecuteDispatch(op: D.Op, raw: u32, len: nat, s: I.State)
    ensures var next := ToU64(s.hart.pc + len);
            && (op.Load? ==> I.Execute(op, raw, len, s) == I.ExecLoad(s, op.rd, op.rs1, op.imm, op.funct3, raw, next))
            && (op.Store? ==> I.Execute(op, raw, len, s) == I.ExecStore(s, op.rs1, op.rs2, op.imm, op.funct3, raw,
                                                                        next))
            && (op.Amo? ==> I.Execute(op, raw, len, s) == I.ExecAmo(s, op.rd, op.rs1, op.rs2, op.funct3, op.funct5, raw,
                                                                    next))
            && (op.System? ==> I.Execute(op, raw, len, s) == I.ExecSystem(s, op.rd, op.rs1, op.funct3, op.imm, raw,
                                                                          next))
  {
    hide I.ExecLoad, I.ExecStore, I.ExecAmo, I.ExecSystem, I.Finish, I.Jump, I.Taken, I.Retire, ToU64, WrappingAdd;
  }

  /** Twins executing the same quiet instruction report the same trap and remain twins. */
  lemma TwinExecute(pt: Tables, code: iset<int>, m0: Mem, u: I.State, v: I.State, op: D.Op, raw: u32, len: nat)
    requires Twin(pt, code, m0, u, v) && F.Disjoint(pt, code) && DataQuiet(pt, code, v, op)
    requires F.Tabled(pt, v)
    ensures TwinSteps(pt, code, m0, I.Execute(op, raw, len, u), I.Execute(op, raw, len, v))
  {
    hide *;
    SameHart(pt, code, m0, u, v);
    var next := ToU64(u.hart.pc + len);
    ExecuteDispatch(op, raw, len, u);
    ExecuteDispatch(op, raw, len, v);
    match op
    case Load(rd, rs1, imm, funct3) => TwinLoad(pt, code, m0, u, v, op, raw, next);
    case Store(rs1, rs2, imm, funct3) => TwinStore(pt, code, m0, u, v, op, raw, next);
    case Amo(rd, rs1, rs2, funct3, funct5, _, _) => TwinAmo(pt, code, m0, u, v, op, raw, next);
    case System(rd, rs1, funct3, imm) =>
      QuietTimer(pt, code, v, op);
      TwinSystem(pt, code, m0, u, v, rd, rs1, funct3, imm, raw, next);
    case _ => TwinPlain(pt, code, m0, u, v, op, raw, len);
  }

  lemma TwinLoad(pt: Tables, code: iset<int>, m0: Mem, u: I.State, v: I.State, op: D.Op, raw: u32, next: u64)
    requires Twin(pt, code, m0, u, v) && F.Disjoint(pt, code) && DataQuiet(pt, code, v, op) && op.Load?
    requires F.Tabled(pt, v)
    ensures TwinSteps(pt, code, m0, I.ExecLoad(u, op.rd, op.rs1, op.imm, op.funct3, raw, next),
                      I.ExecLoad(v, op.rd, op.rs1, op.imm, op.funct3, raw, next))
  {
    hide Twin, TwinSteps, I.Translate, P.Resolve, I.LoadFrom, I.Fault, F.Tabled, F.Disjoint, WrappingAdd;
    SameHart(pt, code, m0, u, v);
    var k := I.LoadKindOf(op.funct3);
    if k.None? {
      TwinFault(pt, code, m0, u, v, IllegalInstruction(raw));
    } else {
      var addr := WrappingAdd(ReadReg(u.hart.regs, op.rs1), ToU64(op.imm));
      TwinTranslate(pt, code, m0, u, v, addr, M.Load);
      var x, y := I.Translate(u, addr, M.Load), I.Translate(v, addr, M.Load);
      if x.res.Err? {
        TwinFault(pt, code, m0, x.s, y.s, x.res.trap);
      } else {
        TwinLoadFrom(pt, code, m0, x.s, y.s, x.res.value, k.value, op.rd, next);
      }
    }
  }

  lemma TwinLoadFrom(pt: Tables, code: iset<int>, m0: Mem, u: I.State, v: I.State,
                     pa: u64, k: I.LoadKind, rd: D.Reg, next: u64)
    requires Twin(pt, code, m0, u, v) && Word(pa) !in pt.loose
    ensures TwinSteps(pt, code, m0, I.LoadFrom(u, pa, k, rd, next), I.LoadFrom(v, pa, k, rd, next))
  {
    TwinRead(pt, code, m0, u, v, pa, k.width);
    hide Twin, TwinSteps, Read, I.Fault, I.Retire, I.SetReg, I.SextTo64;
    match Read(u.mem, pa, k.width)
    case Err(e) => TwinFault(pt, code, m0, u, v, e);
    case Ok(w) =>
      var value := if k.signed then I.SextTo64(w, k.width) else w;
      TwinSetReg(pt, code, m0, u, v, rd, value);
      TwinRetire(pt, code, m0, I.SetReg(u, rd, value), I.SetReg(v, rd, value), next);
  }

  lemma TwinStore(pt: Tables, code: iset<int>, m0: Mem, u: I.State, v: I.State, op: D.Op, raw: u32, next: u64)
    requires Twin(pt, code, m0, u, v) && F.Disjoint(pt, code) && DataQuiet(pt, code, v, op) && op.Store?
    requires F.Tabled(pt, v)
    ensures TwinSteps(pt, code, m0, I.ExecStore(u, op.rs1, op.rs2, op.imm, op.funct3, raw, next),
                      I.ExecStore(v, op.rs1, op.rs2, op.imm, op.funct3, raw, next))
  {
    hide Twin, TwinSteps, I.Translate, P.Resolve, Write, I.Fault, I.Retire, F.Tabled;
    SameHart(pt, code, m0, u, v);
    var addr := WrappingAdd(ReadReg(u.hart.regs, op.rs1), ToU64(op.imm));
    TwinTranslate(pt, code, m0, u, v, addr, M.Store);
    var x, y := I.Translate(u, addr, M.Store), I.Translate(v, addr, M.Store);
    SameHart(pt, code, m0, x.s, y.s);
    var h := x.s.hart.(reservation := ClearConflict(x.s.hart.reservation, addr));
    TwinHart(pt, code, m0, x.s, y.s, h);
    if x.res.Err? {
      TwinFault(pt, code, m0, x.s, y.s, x.res.trap);
    } else {
      var x', y' := x.s.(hart := h), y.s.(hart := h);
      match I.StoreWidth(op.funct3)
      case None => TwinFault(pt, code, m0, x', y', IllegalInstruction(raw));
      case Some(w) =>
        var value := ReadReg(h.regs, op.rs2);
        TwinWrite(pt, code, m0, x', y', x.res.value, w, value);
        match Write(x'.mem, x.res.value, w, value)
        case Err(e) => TwinFault(pt, code, m0, x', y', e);
        case Ok(m) =>
          TwinRetire(pt, code, m0, x'.(mem := m), y'.(mem := Write(y'.mem, x.res.value, w, value).value), next);
    }
  }

  lemma TwinAmo(pt: Tables, code: iset<int>, m0: Mem, u: I.State, v: I.State, op: D.Op, raw: u32, next: u64)
    requires Twin(pt, code, m0, u, v) && F.Disjoint(pt, code) && DataQuiet(pt, code, v, op) && op.Amo?
    requires F.Tabled(pt, v)
    ensures TwinSteps(pt, code, m0, I.ExecAmo(u, op.rd, op.rs1, op.rs2, op.funct3, op.funct5, raw, next),
                      I.ExecAmo(v, op.rd, op.rs1, op.rs2, op.funct3, op.funct5, raw, next))
  {
    hide Twin, TwinSteps, I.Translate, P.Resolve, I.Fault, I.ExecLr, I.ExecSc, I.ExecRmw, F.Tabled;
    SameHart(pt, code, m0, u, v);
    var addr := ReadReg(u.hart.regs, op.rs1);
    TwinTranslate(pt, code, m0, u, v, addr, M.Load);
    var x, y := I.Translate(u, addr, M.Load), I.Translate(v, addr, M.Load);
    if x.res.Err? {
      TwinFault(pt, code, m0, x.s, y.s, x.res.trap);
    } else {
      match I.AmoWidth(op.funct3)
      case None => TwinFault(pt, code, m0, x.s, y.s, IllegalInstruction(raw));
      case Some(w) =>
        if op.funct5 == 0x02 {
          TwinLr(pt, code, m0, x.s, y.s, x.res.value, addr, w, op.rd, next);
        } else if op.funct5 == 0x03 {
          TwinSc(pt, code, m0, x.s, y.s, x.res.value, addr, w, op.rd, op.rs2, next);
        } else {
          TwinRmw(pt, code, m0, x.s, y.s, x.res.value, addr, w, op.funct5, op.rd, op.rs2, raw, next);
        }
    }
  }

  lemma TwinLr(pt: Tables, code: iset<int>, m0: Mem, u: I.State, v: I.State, pa: u64, addr: u64, w: Width, rd: D.Reg,
               next: u64)
    requires Twin(pt, code, m0, u, v) && Word(pa) !in pt.loose
    ensures TwinSteps(pt, code, m0, I.ExecLr(u, pa, addr, w, rd, next), I.ExecLr(v, pa, addr, w, rd, next))
  {
    hide Twin, TwinSteps, I.Retire, Read, Granule;
    TwinRead(pt, code, m0, u, v, pa, w);
    SameHart(pt, code, m0, u, v);
    match Read(u.mem, pa, w)
    case Err(e) =>
      TwinFault(pt, code, m0, u, v, e);
    case Ok(x) =>
      var h := I.SetReg(u, rd, I.Widen(x, w)).hart.(reservation := Some(Granule(addr)));
      TwinHart(pt, code, m0, u, v, h);
      TwinRetire(pt, code, m0, u.(hart := h), v.(hart := h), next);
  }

  lemma TwinSc(pt: Tables, code: iset<int>, m0: Mem, u: I.State, v: I.State, pa: u64, addr: u64, w: Width, rd: D.Reg,
               rs2: D.Reg, next: u64)
    requires Twin(pt, code, m0, u, v) && !pt.Has(Word(pa)) && Word(pa) !in code
    ensures TwinSteps(pt, code, m0, I.ExecSc(u, pa, addr, w, rd, rs2, next), I.ExecSc(v, pa, addr, w, rd, rs2, next))
  {
    hide Twin, TwinSteps, I.Retire, I.Fault, Write, Granule;
    SameHart(pt, code, m0, u, v);
    var value := ReadReg(u.hart.regs, rs2);
    TwinWrite(pt, code, m0, u, v, pa, w, value);
    TwinFault(pt, code, m0, u, v, StoreAddressMisaligned(addr));
    TwinSetReg(pt, code, m0, u, v, rd, 1);
    TwinRetire(pt, code, m0, I.SetReg(u, rd, 1), I.SetReg(v, rd, 1), next);
    match Write(u.mem, pa, w, value)
    case Err(e) =>
      TwinFault(pt, code, m0, u, v, e);
    case Ok(m) =>
      var n := Write(v.mem, pa, w, value).value;
      var h := I.SetReg(u, rd, 0).hart.(reservation := None);
      TwinHart(pt, code, m0, u.(mem := m), v.(mem := n), h);
      TwinRetire(pt, code, m0, u.(mem := m, hart := h), v.(mem := n, hart := h), next);
  }

  lemma TwinRmw(pt: Tables, code: iset<int>, m0: Mem, u: I.State, v: I.State, pa: u64, addr: u64, w: Width,
                funct5: int, rd: D.Reg, rs2: D.Reg, raw: u32, next: u64)
    requires Twin(pt, code, m0, u, v) && !pt.Has(Word(pa)) && Word(pa) !in code
    ensures TwinSteps(pt, code, m0, I.ExecRmw(u, pa, addr, w, funct5, rd, rs2, raw, next),
                      I.ExecRmw(v, pa, addr, w, funct5, rd, rs2, raw, next))
  {
    hide Twin, TwinSteps, I.Retire, I.Fault, I.SetReg, Read, Write, ClearConflict, I.Widen;
    SameHart(pt, code, m0, u, v);
    var value := ReadReg(u.hart.regs, rs2);
    TwinFault(pt, code, m0, u, v, IllegalInstruction(raw));
    var h := u.hart.(reservation := ClearConflict(u.hart.reservation, addr));
    TwinHart(pt, code, m0, u, v, h);
    var x, y := u.(hart := h), v.(hart := h);
    TwinRead(pt, code, m0, x, y, pa, w);
    if I.AmoValue(funct5, 0, value, w).Some? {
      match Read(x.mem, pa, w)
      case Err(e) =>
        SameRange(pt, code, m0, x, y);
        TwinFault(pt, code, m0, x, y, I.AmoTrap(x.mem, pa, e));
      case Ok(r) =>
        var prev := I.Widen(r, w);
        AmoTotal(funct5, prev, value, w);
        var z := I.AmoValue(funct5, prev, value, w).value;
        TwinWrite(pt, code, m0, x, y, pa, w, z);
        hide I.AmoValue;
        match Write(x.mem, pa, w, z)
        case Err(e) =>
          SameRange(pt, code, m0, x, y);
          TwinFault(pt, code, m0, x, y, I.AmoTrap(x.mem, pa, e));
        case Ok(m) =>
          var n := Write(y.mem, pa, w, z).value;
          TwinSetReg(pt, code, m0, x.(mem := m), y.(mem := n), rd, prev);
          TwinRetire(pt, code, m0, I.SetReg(x.(mem := m), rd, prev), I.SetReg(y.(mem := n), rd, prev), next);
    }
  }

  lemma SameRange(pt: Tables, code: iset<int>, m0: Mem, u: I.State, v: I.State)
    requires Twin(pt, code, m0, u, v)
    ensures u.mem.base == v.mem.base && u.mem.size == v.mem.size
  {
  }

  lemma AmoTotal(funct5: int, prev: u64, v: u64, w: Width)
    ensures I.AmoValue(funct5, prev, v, w).Some? == I.AmoValue(funct5, 0, v, w).Some?
  {
  }

  lemma TwinSystem(pt: Tables, code: iset<int>, m0: Mem, u: I.State, v: I.State,
                   rd: D.Reg, rs1: D.Reg, funct3: int, imm: int, raw: u32, next: u64)
    requires Twin(pt, code, m0, u, v) && Word(I.MTIME) !in pt.loose
    ensures TwinSteps(pt, code, m0, I.ExecSystem(u, rd, rs1, funct3, imm, raw, next),
                      I.ExecSystem(v, rd, rs1, funct3, imm, raw, next))
  {
    if funct3 == 0 {
      TwinPrivileged(pt, code, m0, u, v, raw, next);
    } else if funct3 == 4 || !(0 < funct3 < 8) {
      TwinFault(pt, code, m0, u, v, IllegalInstruction(raw));
    } else {
      TwinCsr(pt, code, m0, u, v, rd, rs1, funct3, imm % 0x1000, next);
    }
    hide *;
  }

  lemma TwinPrivileged(pt: Tables, code: iset<int>, m0: Mem, u: I.State, v: I.State, raw: u32, next: u64)
    requires Twin(pt, code, m0, u, v)
    ensures TwinSteps(pt, code, m0, I.ExecPrivileged(u, raw, next), I.ExecPrivileged(v, raw, next))
  {
    hide Twin, I.Fault, I.Retire, T.Mret, T.Sret, I.IsSfenceVma;
    SameHart(pt, code, m0, u, v);
    TwinFlush(pt, code, m0, u, v, u.hart);
    TwinRetire(pt, code, m0, u.(tlb := M.Flushed(u.tlb)), v.(tlb := M.Flushed(v.tlb)), next);
    forall t: Trap
      ensures TwinSteps(pt, code, m0, I.Fault(u, t), I.Fault(v, t))
    {
      TwinFault(pt, code, m0, u, v, t);
    }
    ReturnsKeepSatp(u.hart);
    forall h: Hart | h.csrs[CSR_SATP] == u.hart.csrs[CSR_SATP]
      ensures Twin(pt, code, m0, u.(hart := h), v.(hart := h))
    {
      TwinHart(pt, code, m0, u, v, h);
    }
  }

  lemma ReturnsKeepSatp(h: Hart)
    ensures h.mode == Machine ==> T.Mret(h).csrs[CSR_SATP] == h.csrs[CSR_SATP]
    ensures h.mode == Supervisor ==> T.Sret(h).csrs[CSR_SATP] == h.csrs[CSR_SATP]
  {
    hide T.StatusMret, T.StatusSret, T.MppMode;
  }

  lemma OtherWritesKeepSatp(c: CsrView, csr: CsrAddr, x: u64, mode: Mode)
    requires csr != CSR_SATP && CsrWrite(c, csr, x, mode).Ok?
    ensures CsrWrite(c, csr, x, mode).value[CSR_SATP] == c[CSR_SATP]
  {
    hide Allowed, ReadOnly;
  }

  lemma TwinCsrOld(pt: Tables, code: iset<int>, m0: Mem, u: I.State, v: I.State, csr: CsrAddr)
    requires Twin(pt, code, m0, u, v) && Word(I.MTIME) !in pt.loose
    ensures I.CsrOld(u, csr) == I.CsrOld(v, csr)
  {
    hide Twin, Read, CsrRead;
    SameHart(pt, code, m0, u, v);
    TwinRead(pt, code, m0, u, v, I.MTIME, W64);
  }

  lemma TwinCsr(pt: Tables, code: iset<int>, m0: Mem, u: I.State, v: I.State,
                rd: D.Reg, rs1: D.Reg, funct3: int, csr: CsrAddr, next: u64)
    requires Twin(pt, code, m0, u, v) && Word(I.MTIME) !in pt.loose
    ensures TwinSteps(pt, code, m0, I.ExecCsr(u, rd, rs1, funct3, csr, next), I.ExecCsr(v, rd, rs1, funct3, csr, next))
  {
    hide Twin, TwinSteps, I.CsrOld, I.Fault, I.Retire, I.SetReg, CsrWrite, I.CsrNew;
    SameHart(pt, code, m0, u, v);
    TwinRead(pt, code, m0, u, v, I.MTIME, W64);
    TwinCsrOld(pt, code, m0, u, v, csr);
    var prev := I.CsrOld(u, csr);
    if prev.Err? {
      TwinFault(pt, code, m0, u, v, prev.trap);
    } else {
      match I.CsrNew(funct3, rs1, ReadReg(u.hart.regs, rs1), prev.value)
      case None =>
        TwinSetReg(pt, code, m0, u, v, rd, prev.value);
        TwinRetire(pt, code, m0, I.SetReg(u, rd, prev.value), I.SetReg(v, rd, prev.value), next);
      case Some(x) =>
        match CsrWrite(u.hart.csrs, csr, x, u.hart.mode)
        case Err(e) =>
          TwinFault(pt, code, m0, u, v, e);
        case Ok(file) =>
          var h := u.hart.(csrs := file);
          TwinFlush(pt, code, m0, u, v, h);
          if csr != CSR_SATP {
            OtherWritesKeepSatp(u.hart.csrs, csr, x, u.hart.mode);
            TwinHart(pt, code, m0, u, v, h);
          }
          var u', v' := u.(hart := h), v.(hart := h);
          var u'' := if csr == CSR_SATP then u'.(tlb := M.Flushed(u'.tlb)) else u';
          var v'' := if csr == CSR_SATP then v'.(tlb := M.Flushed(v'.tlb)) else v';
          TwinSetReg(pt, code, m0, u'', v'', rd, prev.value);
          TwinRetire(pt, code, m0, I.SetReg(u'', rd, prev.value), I.SetReg(v'', rd, prev.value), next);
    }
  }

  lemma TwinPlain(pt: Tables, code: iset<int>, m0: Mem, u: I.State, v: I.State, op: D.Op, raw: u32, len: nat)
    requires Twin(pt, code, m0, u, v)
    requires !op.Load? && !op.Store? && !op.Amo? && !op.System?
    ensures TwinSteps(pt, code, m0, I.Execute(op, raw, len, u), I.Execute(op, raw, len, v))
  {
    hide Twin, I.Execute;
    SameHart(pt, code, m0, u, v);
    PlainHart(op, raw, len, u, v);
    PlainKeepsSatp(op, raw, len, u);
    TwinHart(pt, code, m0, u, v, I.Execute(op, raw, len, u).next.hart);
  }

  lemma PlainKeepsSatp(op: D.Op, raw: u32, len: nat, u: I.State)
    requires !op.Load? && !op.Store? && !op.Amo? && !op.System?
    ensures I.Execute(op, raw, len, u).next.hart.csrs[CSR_SATP] == u.hart.csrs[CSR_SATP]
  {
    hide T.HandleTrap, I.OpImmValue, I.OpValue, I.OpImm32Value, I.Op32Value, I.Taken, WriteReg, ReadReg, WrappingAdd;
    forall h: Hart, t: Trap, pc: u64
      ensures T.HandleTrap(h, t, pc).csrs[CSR_SATP] == h.csrs[CSR_SATP]
    {
      TrapKeepsSatp(h, t, pc);
    }
  }

  /** Instructions without memory access depend on, and change, only the hart. */
  lemma PlainHart(op: D.Op, raw: u32, len: nat, u: I.State, v: I.State)
    requires u.hart == v.hart
    requires !op.Load? && !op.Store? && !op.Amo? && !op.System?
    ensures var x, y := I.Execute(op, raw, len, u), I.Execute(op, raw, len, v);
            && x.err == y.err && x.next.hart == y.next.hart
            && x.next == u.(hart := x.next.hart) && y.next == v.(hart := y.next.hart)
  {
    hide T.HandleTrap, I.OpImmValue, I.OpValue, I.OpImm32Value, I.Op32Value, I.Taken, WriteReg, ReadReg, WrappingAdd;
  }
}
