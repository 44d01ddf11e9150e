/** The register file behind the control and status registers, and what its supervisor windows show. */
module CsrModel {
  import opened Base
  import opened Bits
  import opened HartState

  class CsrFile {
    const storage: array<u64>

    ghost predicate Valid()
    {
      storage.Length == 4096
    }

    ghost function View(): CsrView
      reads storage
      requires Valid()
    {
      storage[..]
    }

    constructor ()
      ensures Valid() && fresh(storage) && View() == seq(4096, _ => 0)
    {
      storage := new u64[4096](_ => 0);
    }

    method ReadCsr(addr: CsrAddr, mode: Mode) returns (r: Result<u64>)
      requires Valid()
      ensures r == CsrRead(View(), addr, mode)
    {
      hide And, Allowed;
      if !Allowed(addr, mode) {
        return Err(IllegalInstruction(addr));
      }
      if addr == CSR_SSTATUS {
        return Ok(And(storage[CSR_MSTATUS], SSTATUS_MASK));
      } else if addr == CSR_SIE {
        return Ok(And(storage[CSR_MIE], S_INTERRUPTS));
      } else if addr == CSR_SIP {
        return Ok(And(storage[CSR_MIP], S_INTERRUPTS));
      }
      return Ok(storage[addr]);
    }

    method WriteCsr(addr: CsrAddr, val: u64, mode: Mode) returns (error: Option<Trap>)
      requires Valid()
      modifies storage
      ensures match CsrWrite(old(View()), addr, val, mode)
              case Ok(c) => error == None && View() == c
              case Err(t) => error == Some(t) && View() == old(View())
    {
      hide Merge, Allowed, ReadOnly;
      if ReadOnly(addr) {
        return None;
      }
      if !Allowed(addr, mode) {
        return Some(IllegalInstruction(addr));
      }
      if addr == CSR_SSTATUS {
        storage[CSR_MSTATUS] := Merge(storage[CSR_MSTATUS], val, SSTATUS_MASK);
      } else if addr == CSR_SIE {
        storage[CSR_MIE] := Merge(storage[CSR_MIE], val, S_INTERRUPTS);
      } else if addr == CSR_SIP {
        storage[CSR_MIP] := Merge(storage[CSR_MIP], val, SIP_WRITABLE);
      } else {
        storage[addr] := val;
      }
      return None;
    }

    /** Restore from a map: absent registers become zero. */
    method Import(values: map<int, u64>)
      requires Valid()
      modifies storage
      ensures forall k :: 0 <= k < 4096 ==> View()[k] == if k in values then values[k] else 0
    {
      for k := 0 to 4096
        invariant forall j :: 0 <= j < k ==> storage[j] == if j in values then values[j] else 0
      {
        storage[k] := if k in values then values[k] else 0;
      }
    }
  }

  // ---- Windows ---------------------------------------------------------------------------------------------

  /** The machine register a supervisor window looks into, the bits it shows, and the bits it can change. */
  datatype Window = Window(target: CsrAddr, visible: u64, writable: u64)

  function WindowOf(addr: CsrAddr): Option<Window> {
    if addr == CSR_SSTATUS then Some(Window(CSR_MSTATUS, SSTATUS_MASK, SSTATUS_MASK))
    else if addr == CSR_SIE then Some(Window(CSR_MIE, S_INTERRUPTS, S_INTERRUPTS))
    else if addr == CSR_SIP then Some(Window(CSR_MIP, S_INTERRUPTS, SIP_WRITABLE))
    else None
  }

  /** Writing through a window changes, bit for bit, the writable bits of the register behind it and nothing
      else, and reading through it shows the visible bits of that register and zeros elsewhere. */
  lemma WindowBits(c: CsrView, addr: CsrAddr, val: u64, mode: Mode, j: nat)
    requires WindowOf(addr).Some? && Allowed(addr, mode) && j < 64
    ensures CsrWrite(c, addr, val, mode).Ok? && CsrRead(c, addr, mode).Ok?
    ensures var w, d := WindowOf(addr).value, CsrWrite(c, addr, val, mode).value;
            && Bit(d[w.target], j) == (if Bit(w.writable, j) then Bit(val, j) else Bit(c[w.target], j))
            && (forall k :: 0 <= k < 4096 && k != w.target ==> d[k] == c[k])
            && Bit(CsrRead(c, addr, mode).value, j) == (Bit(w.visible, j) && Bit(c[w.target], j))
  {
    hide Bit, Merge, And;
    var w := WindowOf(addr).value;
    BitOfMerge(c[w.target], val, w.writable, j);
    BitOfAnd(c[w.target], w.visible, j);
  }

  /** A value written through `sstatus` or `sie` reads back through the same window as its visible bits. */
  lemma WindowReadsBack(c: CsrView, addr: CsrAddr, val: u64, mode: Mode)
    requires (addr == CSR_SSTATUS || addr == CSR_SIE) && Allowed(addr, mode)
    ensures CsrWrite(c, addr, val, mode).Ok?
    ensures CsrRead(CsrWrite(c, addr, val, mode).value, addr, mode) == Ok(And(val, WindowOf(addr).value.visible))
  {
    hide Bit, Merge, And;
    var w, d := WindowOf(addr).value, CsrWrite(c, addr, val, mode).value;
    var r := CsrRead(d, addr, mode).value;
    forall j | 0 <= j < 64
      ensures Bit(r, j) == Bit(And(val, w.visible), j)
    {
      WindowBits(c, addr, val, mode, j);
      WindowBits(d, addr, val, mode, j);
      BitOfAnd(val, w.visible, j);
    }
    BitsDetermine(r, And(val, w.visible));
  }
}
