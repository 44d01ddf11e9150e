/** The instructions a run of the interpreter meets, and those compilation may have turned into blocks on
    the way.  A cached block is right as long as what it was compiled from is still what is executed. */
module ProgramText {
  import opened Base
  import opened Memory
  import M = Mmu
  import P = MmuProofs
  import D = Decoder
  import opened HartState
  import Micro
  import I = Interpreter
  import K = Block
  import F = FetchProofs
  import W = Twins
  import C = BlockCorrect
  import B = BlockTheorems

  /** An instruction seen at an address. */
  datatype Line = Line(va: u64, insn: F.Insn)

  // ---- What compilation reads -----------------------------------------------------------------------------

  /** Is `va` the address of one of `n` instructions in a row, the first at `start + off`? */
  ghost predicate Covers(m: Mem, c: M.Context, start: u64, n: nat, off: nat, va: u64) {
    n > 0 &&
    var pc := ToU64(start + off);
    && F.PlainFetch(m, c, pc).Insn?
    && (va == pc || Covers(m, c, start, n - 1, off + F.PlainFetch(m, c, pc).len, va))
  }

  /** The instructions a block compiled in `s` is made of. */
  ghost function Window(s: I.State): iset<Line> {
    var c := I.ContextOf(s.hart);
    var p := C.PlanFor(s.mem, c, s.hart.pc, 0);
    iset va: u64 | p.Planned? && Covers(s.mem, c, s.hart.pc, |p.block.ops|, 0, va) :: Line(va,
          F.PlainFetch(s.mem, c, va))
  }

  /** The operations of `b` from index `idx` on are those of instructions in `text`. */
  ghost predicate Holds(text: iset<Line>, b: K.Block, idx: nat, off: nat)
    requires idx <= |b.ops|
    decreases |b.ops| - idx
  {
    if idx == |b.ops| then off == b.byteLen
    else
      exists bits: u32, len: nat ::
        && Line(ToU64(b.startPc + off), F.Insn(bits, len)) in text
        && D.Decode(bits).Ok?
        && b.ops[idx] == Micro.Transcode(D.Decode(bits).value, off, len)
        && Holds(text, b, idx + 1, off + len)
  }

  lemma {:induction false} HoldsMore(text: iset<Line>, more: iset<Line>, b: K.Block, idx: nat, off: nat)
    requires idx <= |b.ops| && text <= more && Holds(text, b, idx, off)
    ensures Holds(more, b, idx, off)
    decreases |b.ops| - idx
  {
    hide D.Decode, Micro.Transcode, ToU64;
    if idx < |b.ops| {
      var bits: u32, len: nat :|
        && Line(ToU64(b.startPc + off), F.Insn(bits, len)) in text
        && D.Decode(bits).Ok?
        && b.ops[idx] == Micro.Transcode(D.Decode(bits).value, off, len)
        && Holds(text, b, idx + 1, off + len);
      HoldsMore(text, more, b, idx + 1, off + len);
      assert Line(ToU64(b.startPc + off), F.Insn(bits, len)) in more;
    }
  }

  lemma {:induction false} FollowsHolds(text: iset<Line>, m: Mem, c: M.Context, b: K.Block, idx: nat, off: nat)
    requires idx <= |b.ops| && C.Follows(m, c, b, idx, off)
    requires forall va: u64 ::
               Covers(m, c, b.startPc, |b.ops| - idx, off, va) ==> Line(va, F.PlainFetch(m, c, va)) in text
    ensures Holds(text, b, idx, off)
    decreases |b.ops| - idx
  {
    hide F.PlainFetch, D.Decode, Micro.Transcode, ToU64;
    if idx < |b.ops| {
      var pc := ToU64(b.startPc + off);
      var f := F.PlainFetch(m, c, pc);
      assert Covers(m, c, b.startPc, |b.ops| - idx, off, pc);
      assert Line(pc, F.Insn(f.bits, f.len)) in text;
      forall va: u64 | Covers(m, c, b.startPc, |b.ops| - (idx + 1), off + f.len, va)
        ensures Line(va, F.PlainFetch(m, c, va)) in text
      {
        assert Covers(m, c, b.startPc, |b.ops| - idx, off, va);
      }
      FollowsHolds(text, m, c, b, idx + 1, off + f.len);
    }
  }

  /** The generation is only recorded. */
  lemma {:induction false} PlanGeneration(m: Mem, c: M.Context, b: K.Block, pc: u64, off: nat, g: nat)
    requires |b.ops| <= K.MAX_BLOCK_SIZE
    ensures var p := C.PlanFrom(m, c, b, pc, off);
            C.PlanFrom(m, c, b.(generation := g), pc, off)
            == if p.Planned? then C.Planned(p.block.(generation := g)) else p
    decreases K.MAX_BLOCK_SIZE - |b.ops|
  {
    hide F.PlainFetch, D.Decode, Micro.Transcode, Micro.IsTerminator, K.NextPage, K.JumpTarget, ToU64;
    var v := C.PlanMove(m, c, b, pc, off);
    if v.More? {
      PlanGeneration(m, c, v.block, v.pc, off + F.PlainFetch(m, c, pc).len, g);
    }
  }

  /** A block compiled in `s` holds instructions of the window of `s`. */
  lemma WindowHolds(s: I.State, generation: nat)
    requires C.PlanFor(s.mem, I.ContextOf(s.hart), s.hart.pc, generation).Planned?
    ensures Holds(Window(s), C.PlanFor(s.mem, I.ContextOf(s.hart), s.hart.pc, generation).block, 0, 0)
  {
    hide P.Resolve, C.PlanFrom, C.Follows, F.PlainFetch, B.Chained, Covers, I.ContextOf;
    var c, pc := I.ContextOf(s.hart), s.hart.pc;
    var b := C.PlanFor(s.mem, c, pc, generation).block;
    var pa := P.Resolve(s.mem, c, pc, M.Instruction).value;
    PlanGeneration(s.mem, c, K.Block(pc, pa, [], 0, None, generation), pc, 0, 0);
    assert |C.PlanFor(s.mem, c, pc, 0).block.ops| == |b.ops|;
    B.Layout(s.mem, c, pc, generation);
    FollowsHolds(Window(s), s.mem, c, b, 0, 0);
  }

  lemma {:induction false} AfterSum(s: I.State, a: nat, b: nat)
    ensures C.After(s, a + b) == C.After(C.After(s, a), b)
    decreases a
  {
    hide I.StepSingle;
    if a > 0 {
      AfterSum(I.StepSingle(s).next, a - 1, b);
    }
  }

  // ---- What a run has to keep --------------------------------------------------------------------------------

  /** Everything in `text`, or in the window of one of the first `n` states from `s` on. */
  ghost function Known(text: iset<Line>, s: I.State, n: nat): iset<Line>
    decreases n
  {
    if n == 0 then text else Known(text + Window(s), I.StepSingle(s).next, n - 1)
  }

  lemma {:induction false} KnownSum(text: iset<Line>, s: I.State, a: nat, b: nat)
    ensures Known(text, s, a + b) == Known(Known(text, s, a), C.After(s, a), b)
    decreases a
  {
    hide I.StepSingle, Window;
    if a > 0 {
      KnownSum(text + Window(s), I.StepSingle(s).next, a - 1, b);
    }
  }

  lemma {:induction false} KnownGrows(text: iset<Line>, s: I.State, n: nat)
    ensures text <= Known(text, s, n)
    decreases n
  {
    hide I.StepSingle, Window;
    if n > 0 {
      KnownGrows(text + Window(s), I.StepSingle(s).next, n - 1);
    }
  }

  /** The instruction about to be interpreted is quiet and not a refused store; what compiling here would
      fetch cannot be marked by a walk; the address is not both odd and untranslatable; and the instruction
      is the one `text` has for its address, if any. */
  ghost predicate GoodAt(pt: Tables, text: iset<Line>, s: I.State) {
    var c := I.ContextOf(s.hart);
    && C.QuietAt(pt, iset{}, s) && !C.RefusedAt(s)
    && F.Tabled(pt, s) && C.ReadsIn(Outside(pt), s.mem, c, s.hart.pc)
    && (s.hart.pc % 2 == 0 || P.Resolve(s.mem, c, s.hart.pc, M.Instruction).Ok?)
    && forall f :: Line(s.hart.pc, f) in text ==> F.PlainFetch(s.mem, c, s.hart.pc) == f
  }

  /** No instruction among the next `n` differs from what compiling earlier may have read at its address. */
  ghost predicate GoodFor(pt: Tables, text: iset<Line>, s: I.State, n: nat) {
    forall k :: 0 <= k < n ==> GoodAt(pt, Known(text, s, k + 1), C.After(s, k))
  }

  lemma GoodSuffix(pt: Tables, text: iset<Line>, s: I.State, a: nat, b: nat)
    requires GoodFor(pt, text, s, a + b)
    ensures GoodFor(pt, text, s, a) && GoodFor(pt, Known(text, s, a), C.After(s, a), b)
  {
    hide GoodAt, Known, C.After;
    forall k | 0 <= k < b
      ensures GoodAt(pt, Known(Known(text, s, a), C.After(s, a), k + 1), C.After(C.After(s, a), k))
    {
      AfterSum(s, a, k);
      KnownSum(text, s, a, k + 1);
      assert GoodAt(pt, Known(text, s, a + k + 1), C.After(s, a + k));
    }
  }

  lemma GoodFirst(pt: Tables, text: iset<Line>, s: I.State, n: nat)
    requires GoodFor(pt, text, s, n) && n > 0
    ensures GoodAt(pt, text, s)
    ensures GoodFor(pt, Known(text, s, 1), I.StepSingle(s).next, n - 1)
  {
    hide GoodAt, I.StepSingle, Window;
    assert C.After(s, 0) == s;
    assert GoodAt(pt, Known(text, s, 1), s);
    KnownGrows(text, s, 1);
    LessText(pt, text, Known(text, s, 1), s);
    GoodSuffix(pt, text, s, 1, n - 1);
    assert C.After(s, 1) == C.After(I.StepSingle(s).next, 0);
  }

  lemma LessText(pt: Tables, text: iset<Line>, more: iset<Line>, s: I.State)
    requires GoodAt(pt, more, s) && text <= more
    ensures GoodAt(pt, text, s)
  {
    hide C.QuietAt, C.RefusedAt, F.Tabled, C.ReadsIn, P.Resolve, F.PlainFetch;
  }

  /** None of the first `n` instructions is a store that gives up a reservation and is then refused. */
  ghost predicate NoneRefused(s: I.State, n: nat) {
    forall k :: 0 <= k < n ==> !C.RefusedAt(C.After(s, k))
  }

  lemma GoodIsUnrefused(pt: Tables, text: iset<Line>, s: I.State, n: nat)
    requires GoodFor(pt, text, s, n)
    ensures NoneRefused(s, n)
  {
    hide C.QuietAt, C.ReadsIn, P.Resolve, F.Tabled, C.After, C.RefusedAt, F.PlainFetch, Known;
    forall k | 0 <= k < n
      ensures !C.RefusedAt(C.After(s, k))
    {
      assert GoodAt(pt, Known(text, s, k + 1), C.After(s, k));
    }
  }

  // ---- Blocks on the text --------------------------------------------------------------------------------------

  /** The operation at `idx` and the interpreter's step, if the instruction is still the one in `text`. */
  lemma TextStep(pt: Tables, text: iset<Line>, m0: Mem, b: K.Block, idx: nat, off: nat, e: I.State, i: I.State)
    returns (len: nat)
    requires idx < |b.ops| && Holds(text, b, idx, off)
    requires W.Twin(pt, iset{}, m0, C.WithPc(e, i.hart.pc), i)
    requires e.hart.regs[0] == 0 && i.hart.pc == ToU64(b.startPc + off)
    requires K.MicroStep(b.ops[idx], b.startPc, e).Exit? || GoodAt(pt, text, i)
    ensures C.InStep(pt, iset{}, m0, K.MicroStep(b.ops[idx], b.startPc, e), i, ToU64(i.hart.pc + len))
    ensures Holds(text, b, idx + 1, off + len)
  {
    hide F.PlainFetch, D.Decode, Micro.Transcode, K.MicroStep, I.StepSingle, F.FetchIn, F.Tabled, C.QuietAt,
      C.RefusedAt, C.InStep, W.Twin, C.ReadsIn, P.Resolve, ToU64;
    var bits: u32, n: nat :|
      && Line(ToU64(b.startPc + off), F.Insn(bits, n)) in text
      && D.Decode(bits).Ok?
      && b.ops[idx] == Micro.Transcode(D.Decode(bits).value, off, n)
      && Holds(text, b, idx + 1, off + n);
    len := n;
    if !K.MicroStep(b.ops[idx], b.startPc, e).Exit? {
      C.ReadsFirst(Outside(pt), i.mem, I.ContextOf(i.hart), i.hart.pc);
      assert F.PlainFetch(i.mem, I.ContextOf(i.hart), i.hart.pc) == F.Insn(bits, n);
    }
    C.StepInStep(pt, iset{}, m0, b, idx, off, e, i, bits, n);
  }

  /** A block made of instructions in `text`, however old, does what the interpreter does, if those the
      interpreter executes meanwhile are still the ones in `text`. */
  lemma {:induction false} TextSimulates(pt: Tables, text: iset<Line>, m0: Mem, b: K.Block, idx: nat, off: nat,
                                         e: I.State, i: I.State)
    requires idx <= |b.ops| && Holds(text, b, idx, off)
    requires W.Twin(pt, iset{}, m0, C.WithPc(e, i.hart.pc), i)
    requires e.hart.regs[0] == 0 && i.hart.pc == ToU64(b.startPc + off)
    requires GoodFor(pt, text, i, K.Steps(b, idx, e))
    ensures C.Simulated(pt, iset{}, m0, K.RunOps(b, idx, e), i, K.Steps(b, idx, e))
    decreases |b.ops| - idx
  {
    hide F.PlainFetch, D.Decode, Micro.Transcode, K.MicroStep, W.Twin, GoodAt, GoodFor, I.StepSingle, C.Simulated,
      C.InStep, I.ContextOf, Window;
    if idx == |b.ops| {
      C.EmptyRun(pt, iset{}, m0, b, e, i);
    } else {
      var o := K.MicroStep(b.ops[idx], b.startPc, e);
      if !o.Exit? {
        GoodFirst(pt, text, i, K.Steps(b, idx, e));
      }
      var len := TextStep(pt, text, m0, b, idx, off, e, i);
      if o.Next? {
        C.NextInStep(pt, iset{}, m0, b.ops[idx], b.startPc, e, i, ToU64(i.hart.pc + len));
        C.OffsetSum(b.startPc, off, len);
        KnownGrows(text, i, 1);
        HoldsMore(text, Known(text, i, 1), b, idx + 1, off + len);
        TextSimulates(pt, Known(text, i, 1), m0, b, idx + 1, off + len, o.s, I.StepSingle(i).next);
        C.SimulatedCons(pt, iset{}, m0, K.RunOps(b, idx + 1, o.s), i, K.Steps(b, idx + 1, o.s));
      } else {
        C.SimulatedOne(pt, iset{}, m0, o, i, ToU64(i.hart.pc + len));
      }
    }
  }
}
