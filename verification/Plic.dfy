/** The platform-level interrupt controller: locked state, lock-free caches of it, claim and complete. */
module PlicModel {
  import opened Base
  import opened Bits

  const NUM_SOURCES: nat := 32
  const NUM_CONTEXTS: nat := 256

  /** One bit per source. */
  type Sources = u32

  datatype State = State(priority: seq<u32>, pending: Sources, enable: seq<Sources>, threshold: seq<u32>,
                         active: seq<Sources>)

  ghost predicate Shaped(s: State) {
    |s.priority| == NUM_SOURCES && |s.enable| == NUM_CONTEXTS && |s.threshold| == NUM_CONTEXTS
        && |s.active| == NUM_CONTEXTS
  }

  function SetSource(x: Sources, k: nat, b: bool): (r: Sources)
    requires k < 32
    ensures forall j: nat :: Bit(r, j) == if j == k then b else Bit(x, j)
  {
    Pow2Values();
    WithBitBound(x, k, b, 32);
    var r := WithBit(x, k, b);
    assert forall j: nat :: Bit(r, j) == if j == k then b else Bit(x, j) by {
      forall j: nat
        ensures Bit(r, j) == if j == k then b else Bit(x, j)
      {
        BitOfWithBit(x, k, b, j);
      }
    }
    r
  }

  // ---- What the registers say -------------------------------------------------------------------------------

  /** Pending, enabled, above the threshold: what the caches can tell. */
  predicate Candidate(s: State, source: nat, ctx: nat)
    requires Shaped(s) && source < NUM_SOURCES && ctx < NUM_CONTEXTS
  {
    Bit(s.pending, source) && Bit(s.enable[ctx], source) && s.priority[source] > s.threshold[ctx]
  }

  /** A candidate that the context has not already claimed. */
  predicate Eligible(s: State, source: nat, ctx: nat)
    requires Shaped(s) && source < NUM_SOURCES && ctx < NUM_CONTEXTS
  {
    Candidate(s, source, ctx) && !Bit(s.active[ctx], source)
  }

  ghost predicate AnyEligible(s: State, ctx: nat)
    requires Shaped(s) && ctx < NUM_CONTEXTS
  {
    exists source: nat :: 0 < source < NUM_SOURCES && Eligible(s, source, ctx)
  }

  ghost predicate AnyCandidate(s: State, ctx: nat)
    requires Shaped(s) && ctx < NUM_CONTEXTS
  {
    exists source: nat :: 0 < source < NUM_SOURCES && Candidate(s, source, ctx)
  }

  /** `id` is what a claim by `ctx` must return: 0 if no source is eligible, and otherwise the eligible
      source of greatest priority, the lowest-numbered one on ties. */
  ghost predicate BestClaim(s: State, ctx: nat, id: nat)
    requires Shaped(s) && ctx < NUM_CONTEXTS
  {
    if id == 0 then !AnyEligible(s, ctx)
    else
      && id < NUM_SOURCES && Eligible(s, id, ctx)
      && forall j: nat :: 0 < j < NUM_SOURCES && Eligible(s, j, ctx) ==>
           s.priority[j] < s.priority[id] || (s.priority[j] == s.priority[id] && id <= j)
  }

  // ---- Operations as functions of the state --------------------------------------------------------------------

  /** The best source among 1 to n-1, and 0 if there is none: the claim loop after n-1 passes. */
  function Best(s: State, ctx: nat, n: nat): (id: nat)
    requires Shaped(s) && ctx < NUM_CONTEXTS && 0 < n <= NUM_SOURCES
    ensures id < n
    decreases n
  {
    if n == 1 then 0
    else
      var b := Best(s, ctx, n - 1);
      if Eligible(s, n - 1, ctx) && s.priority[n - 1] > (if b == 0 then 0 else s.priority[b]) then n - 1 else b
  }

  function Claimed(s: State, ctx: nat, id: nat): (r: State)
    requires Shaped(s) && ctx < NUM_CONTEXTS && id < NUM_SOURCES
    ensures Shaped(r)
  {
    if id == 0 then s else s.(active := s.active[ctx := SetSource(s.active[ctx], id, true)])
  }

  function Completed(s: State, ctx: nat, id: nat): (r: State)
    requires Shaped(s) && ctx < NUM_CONTEXTS
    ensures Shaped(r)
  {
    if 0 < id < NUM_SOURCES then s.(active := s.active[ctx := SetSource(s.active[ctx], id, false)]) else s
  }

  function WithLevel(s: State, source: nat, level: bool): (r: State)
    requires Shaped(s)
    ensures Shaped(r)
  {
    if source < NUM_SOURCES then s.(pending := SetSource(s.pending, source, level)) else s
  }

  /** The register a 4-byte access at an offset reaches. */
  datatype Register =
    Priority(source: nat) | Pending | Enable(ctx: nat) | Threshold(ctx: nat) | ClaimComplete(ctx: nat) | Hole

  function RegisterAt(offset: u64): (r: Register)
    ensures r.Priority? ==> r.source < NUM_SOURCES
    ensures r.Enable? || r.Threshold? || r.ClaimComplete? ==> r.ctx < NUM_CONTEXTS
  {
    if offset < 0x1000 then
      if offset / 4 < NUM_SOURCES then Priority(offset / 4) else Hole
    else if offset == 0x1000 then Pending
    else if 0x2000 <= offset < 0x2000 + 0x80 * NUM_CONTEXTS then
      if (offset - 0x2000) % 0x80 == 0 then Enable((offset - 0x2000) / 0x80) else Hole
    else if offset >= 0x20_0000 && (offset - 0x20_0000) / 0x1000 < NUM_CONTEXTS then
      var ctx := (offset - 0x20_0000) / 0x1000;
      var inner := (offset - 0x20_0000) % 0x1000;
      if inner == 0 then Threshold(ctx) else if inner == 4 then ClaimComplete(ctx) else Hole
    else Hole
  }

  /** A store; pending bits are read-only and the claim register completes. */
  function Stored(s: State, offset: u64, size: nat, value: u64): (r: State)
    requires Shaped(s)
    ensures Shaped(r)
  {
    if size != 4 then s
    else
      var val := value % TWO_32;
      match RegisterAt(offset)
      case Priority(source) => s.(priority := s.priority[source := val])
      case Enable(ctx) => s.(enable := s.enable[ctx := val])
      case Threshold(ctx) => s.(threshold := s.threshold[ctx := val])
      case ClaimComplete(ctx) => Completed(s, ctx, val % 0x1_0000)
      case _ => s
  }

  datatype Loaded = Loaded(s: State, value: u64)

  /** A load; only the claim register changes state. */
  function LoadedFrom(s: State, offset: u64, size: nat): (r: Loaded)
    requires Shaped(s)
    ensures Shaped(r.s)
  {
    if size != 4 then Loaded(s, 0)
    else
      match RegisterAt(offset)
      case Priority(source) => Loaded(s, s.priority[source])
      case Pending => Loaded(s, s.pending)
      case Enable(ctx) => Loaded(s, s.enable[ctx])
      case Threshold(ctx) => Loaded(s, s.threshold[ctx])
      case ClaimComplete(ctx) => var id := Best(s, ctx, NUM_SOURCES); Loaded(Claimed(s, ctx, id), id)
      case Hole => Loaded(s, 0)
  }

  // ---- The register map ---------------------------------------------------------------------------------------------

  /** Which offsets reach which register. */
  lemma RegisterMap(offset: u64, source: nat, ctx: nat)
    requires source < NUM_SOURCES && ctx < NUM_CONTEXTS
    ensures RegisterAt(offset) == Priority(source) <==> 4 * source <= offset < 4 * source + 4
    ensures RegisterAt(offset) == Pending <==> offset == 0x1000
    ensures RegisterAt(offset) == Enable(ctx) <==> offset == 0x2000 + 0x80 * ctx
    ensures RegisterAt(offset) == Threshold(ctx) <==> offset == 0x20_0000 + 0x1000 * ctx
    ensures RegisterAt(offset) == ClaimComplete(ctx) <==> offset == 0x20_0004 + 0x1000 * ctx
  {
  }

  /** A 4-byte store: the word at 4 * source is a priority, that at 0x2000 + 0x80 * ctx the enable bits and that at
      0x20_0000 + 0x1000 * ctx the threshold of a context; one more word on, a store completes the source its low
      16 bits name. Nothing else changes anything. */
  lemma StoreMap(s: State, offset: u64, value: u64, source: nat, ctx: nat)
    requires Shaped(s) && source < NUM_SOURCES && ctx < NUM_CONTEXTS
    ensures var n, v := Stored(s, offset, 4, value), value % TWO_32;
            && n.pending == s.pending
            && n.priority[source] == (if 4 * source <= offset < 4 * source + 4 then v else s.priority[source])
            && n.enable[ctx] == (if offset == 0x2000 + 0x80 * ctx then v else s.enable[ctx])
            && n.threshold[ctx] == (if offset == 0x20_0000 + 0x1000 * ctx then v else s.threshold[ctx])
            && (Bit(n.active[ctx], source) <==>
                  && Bit(s.active[ctx], source)
                  && !(offset == 0x20_0004 + 0x1000 * ctx && source != 0 && v % 0x1_0000 == source))
    ensures forall size: nat :: size != 4 ==> Stored(s, offset, size, value) == s
  {
    hide RegisterAt, Bit;
    RegisterMap(offset, source, ctx);
  }

  /** A 4-byte load answers with the register at the offset, and with 0 where there is none; only the claim register
      of a context changes anything, namely the active bit of the source it hands out. */
  lemma LoadMap(s: State, offset: u64, source: nat, ctx: nat)
    requires Shaped(s) && source < NUM_SOURCES && ctx < NUM_CONTEXTS
    ensures var l := LoadedFrom(s, offset, 4);
            && l.s == s.(active := l.s.active)
            && (4 * source <= offset < 4 * source + 4 ==> l.value == s.priority[source])
            && (offset == 0x1000 ==> l.value == s.pending)
            && (offset == 0x2000 + 0x80 * ctx ==> l.value == s.enable[ctx])
            && (offset == 0x20_0000 + 0x1000 * ctx ==> l.value == s.threshold[ctx])
            && (offset == 0x20_0004 + 0x1000 * ctx ==> BestClaim(s, ctx, l.value))
            && (Bit(l.s.active[ctx], source) <==>
                  || Bit(s.active[ctx], source)
                  || (offset == 0x20_0004 + 0x1000 * ctx && source != 0 && l.value == source))
    ensures && 4 * NUM_SOURCES <= offset && offset != 0x1000
            && (forall c: nat :: c < NUM_CONTEXTS ==>
                  && offset != 0x2000 + 0x80 * c && offset != 0x20_0000 + 0x1000 * c
                  && offset != 0x20_0004 + 0x1000 * c)
            ==> LoadedFrom(s, offset, 4) == Loaded(s, 0)
    ensures forall size: nat :: size != 4 ==> LoadedFrom(s, offset, size) == Loaded(s, 0)
  {
    hide RegisterAt, Bit, Best, BestClaim;
    RegisterMap(offset, source, ctx);
    ClaimIsBest(s, ctx);
    if 4 * NUM_SOURCES <= offset {
      NoPriority(offset);
      match RegisterAt(offset)
      case Enable(c) => RegisterMap(offset, 0, c);
      case Threshold(c) => RegisterMap(offset, 0, c);
      case ClaimComplete(c) => RegisterMap(offset, 0, c);
      case _ =>
    }
  }

  lemma NoPriority(offset: u64)
    requires 4 * NUM_SOURCES <= offset
    ensures !RegisterAt(offset).Priority?
  {
  }

  // ---- The claim is the right one ---------------------------------------------------------------------------------

  /** The best source below `n`. */
  ghost predicate BestBelow(s: State, ctx: nat, n: nat, id: nat)
    requires Shaped(s) && ctx < NUM_CONTEXTS && n <= NUM_SOURCES
  {
    if id == 0 then forall j: nat :: 0 < j < n ==> !Eligible(s, j, ctx)
    else
      && id < n && Eligible(s, id, ctx)
      && forall j: nat :: 0 < j < n && Eligible(s, j, ctx) ==>
           s.priority[j] < s.priority[id] || (s.priority[j] == s.priority[id] && id <= j)
  }

  lemma {:induction false} BestIsBestBelow(s: State, ctx: nat, n: nat)
    requires Shaped(s) && ctx < NUM_CONTEXTS && 0 < n <= NUM_SOURCES
    ensures BestBelow(s, ctx, n, Best(s, ctx, n))
    decreases n
  {
    hide Bit;
    if n > 1 {
      BestIsBestBelow(s, ctx, n - 1);
    }
  }

  /** A claim returns an eligible source of greatest priority, the lowest id on ties, and 0 exactly when
      none is eligible. */
  lemma ClaimIsBest(s: State, ctx: nat)
    requires Shaped(s) && ctx < NUM_CONTEXTS
    ensures BestClaim(s, ctx, Best(s, ctx, NUM_SOURCES))
    ensures Best(s, ctx, NUM_SOURCES) == 0 <==> !AnyEligible(s, ctx)
  {
    hide Eligible;
    BestIsBestBelow(s, ctx, NUM_SOURCES);
  }

  // ---- The lock-free check ------------------------------------------------------------------------------------------

  /** With caches equal to the state, the lock-free check sees every eligible source, and its false
      positives are exactly the situations in which every candidate is already active. */
  lemma FastCheckExact(s: State, ctx: nat)
    requires Shaped(s) && ctx < NUM_CONTEXTS
    ensures AnyEligible(s, ctx) ==> AnyCandidate(s, ctx)
    ensures AnyCandidate(s, ctx) && !AnyEligible(s, ctx)
            <==> && AnyCandidate(s, ctx)
                 && forall j: nat :: 0 < j < NUM_SOURCES && Candidate(s, j, ctx) ==> Bit(s.active[ctx], j)
  {
    hide Candidate, Bit;
    if AnyEligible(s, ctx) {
      var j: nat :| 0 < j < NUM_SOURCES && Eligible(s, j, ctx);
      assert Candidate(s, j, ctx);
    } else {
      forall j: nat | 0 < j < NUM_SOURCES && Candidate(s, j, ctx)
        ensures Bit(s.active[ctx], j)
      {
        assert !Eligible(s, j, ctx);
      }
    }
  }

  // ---- Runs ---------------------------------------------------------------------------------------------------------

  /** What guests, devices and harts do to the controller. */
  datatype Op = Level(source: nat, level: bool) | Store(offset: u64, size: nat, value: u64) | Load(offset: u64,
        size: nat) | Claim(ctx: nat)

  predicate OpOk(op: Op) {
    op.Claim? ==> op.ctx < NUM_CONTEXTS
  }

  function Apply(s: State, op: Op): (r: State)
    requires Shaped(s) && OpOk(op)
    ensures Shaped(r)
  {
    match op
    case Level(source, level) => WithLevel(s, source, level)
    case Store(offset, size, value) => Stored(s, offset, size, value)
    case Load(offset, size) => LoadedFrom(s, offset, size).s
    case Claim(ctx) => Claimed(s, ctx, Best(s, ctx, NUM_SOURCES))
  }

  predicate OpsOk(ops: seq<Op>) {
    forall k :: 0 <= k < |ops| ==> OpOk(ops[k])
  }

  function Run(s: State, ops: seq<Op>): (r: State)
    requires Shaped(s) && OpsOk(ops)
    ensures Shaped(r)
    decreases |ops|
  {
    if ops == [] then s else Run(Apply(s, ops[0]), ops[1..])
  }

  /** Does `op` claim for `ctx`, through the register or directly? */
  predicate Claims(op: Op, ctx: nat) {
    match op
    case Claim(c) => c == ctx
    case Load(offset, size) => size == 4 && RegisterAt(offset) == ClaimComplete(ctx)
    case _ => false
  }

  predicate Completes(op: Op, ctx: nat, id: nat) {
    op.Store? && op.size == 4 && RegisterAt(op.offset) == ClaimComplete(ctx) && op.value % TWO_32 % 0x1_0000 == id
  }

  /** The source a claim in state `s` hands to `ctx`, 0 if none. */
  function Handed(s: State, ctx: nat): nat
    requires Shaped(s) && ctx < NUM_CONTEXTS
  {
    Best(s, ctx, NUM_SOURCES)
  }

  /** Only its completion ends a claim. */
  lemma ActiveStays(s: State, op: Op, ctx: nat, id: nat)
    requires Shaped(s) && OpOk(op) && ctx < NUM_CONTEXTS && 0 < id < NUM_SOURCES
    requires Bit(s.active[ctx], id) && !Completes(op, ctx, id)
    ensures Bit(Apply(s, op).active[ctx], id)
  {
    hide Bit, Best, Eligible;
  }

  lemma {:induction false} ActiveThroughout(s: State, ops: seq<Op>, ctx: nat, id: nat)
    requires Shaped(s) && OpsOk(ops) && ctx < NUM_CONTEXTS && 0 < id < NUM_SOURCES
    requires Bit(s.active[ctx], id) && forall k :: 0 <= k < |ops| ==> !Completes(ops[k], ctx, id)
    ensures Bit(Run(s, ops).active[ctx], id)
    decreases |ops|
  {
    hide Bit, Apply, Completes, OpOk;
    if ops != [] {
      assert !Completes(ops[0], ctx, id) && OpOk(ops[0]);
      ActiveStays(s, ops[0], ctx, id);
      assert forall k :: 0 <= k < |ops| - 1 ==> ops[1..][k] == ops[k + 1];
      ActiveThroughout(Apply(s, ops[0]), ops[1..], ctx, id);
    }
  }

  /** Claim discipline: from any state, a source handed to a context is not handed to it again before the
      context has completed it, whatever happens in between. */
  lemma NoSecondClaim(s: State, first: Op, between: seq<Op>, ctx: nat)
    requires Shaped(s) && OpOk(first) && OpsOk(between) && ctx < NUM_CONTEXTS
    requires Claims(first, ctx) && Handed(s, ctx) != 0
    requires forall k :: 0 <= k < |between| ==> !Completes(between[k], ctx, Handed(s, ctx))
    ensures Handed(Run(Apply(s, first), between), ctx) != Handed(s, ctx)
  {
    hide Bit, Run, Completes, OpOk, Best, Candidate, BestBelow;
    var id := Handed(s, ctx);
    assert Apply(s, first) == Claimed(s, ctx, id);
    assert Bit(Apply(s, first).active[ctx], id);
    ActiveThroughout(Apply(s, first), between, ctx, id);
    var t := Run(Apply(s, first), between);
    if Handed(t, ctx) != 0 {
      HandedIsInactive(t, ctx);
    }
  }

  lemma HandedIsInactive(s: State, ctx: nat)
    requires Shaped(s) && ctx < NUM_CONTEXTS && Handed(s, ctx) != 0
    ensures !Bit(s.active[ctx], Handed(s, ctx))
  {
    hide Bit, Candidate, Best;
    BestIsBestBelow(s, ctx, NUM_SOURCES);
  }

  /** A completed source that is still asserted can be claimed again. */
  lemma CompletionReopens(s: State, ctx: nat, id: nat)
    requires Shaped(s) && ctx < NUM_CONTEXTS && 0 < id < NUM_SOURCES && Candidate(s, id, ctx)
    ensures Eligible(Completed(s, ctx, id), id, ctx)
  {
    hide Bit;
  }

  // ---- The device ---------------------------------------------------------------------------------------------------

  class Plic {
    var priority: array<u32>
    var pending: Sources
    var enable: array<Sources>
    var threshold: array<u32>
    var active: array<Sources>
    var pendingCache: Sources
    var enableCache: array<Sources>
    var thresholdCache: array<u32>
    var priorityCache: array<u32>

    ghost predicate Valid()
      reads this
    {
      && priority.Length == priorityCache.Length == NUM_SOURCES
      && enable.Length == threshold.Length == active.Length == enableCache.Length == thresholdCache.Length
         == NUM_CONTEXTS
      && priority != priorityCache
      && enable != threshold && enable != active && enable != enableCache && enable != thresholdCache
      && threshold != active && threshold != enableCache && threshold != thresholdCache
      && active != enableCache && active != thresholdCache && enableCache != thresholdCache
    }

    ghost function Repr(): set<object>
      reads this
    {
      {this, priority, enable, threshold, active, enableCache, thresholdCache, priorityCache}
    }

    /** The locked state. */
    ghost function Locked(): (s: State)
      reads this, Repr()
      requires Valid()
      ensures Shaped(s)
    {
      State(priority[..], pending, enable[..], threshold[..], active[..])
    }

    /** The caches equal the locked state. */
    ghost predicate Mirrored()
      reads this, Repr()
      requires Valid()
    {
      && pendingCache == pending && enableCache[..] == enable[..]
      && thresholdCache[..] == threshold[..] && priorityCache[..] == priority[..]
    }

    constructor ()
      ensures Valid() && Mirrored() && fresh(Repr())
      ensures Locked() == State(seq(NUM_SOURCES, _ => 0), 0, seq(NUM_CONTEXTS, _ => 0), seq(NUM_CONTEXTS, _ => 0),
                                seq(NUM_CONTEXTS, _ => 0))
    {
      priority := new u32[NUM_SOURCES](_ => 0);
      enable := new Sources[NUM_CONTEXTS](_ => 0);
      threshold := new u32[NUM_CONTEXTS](_ => 0);
      active := new Sources[NUM_CONTEXTS](_ => 0);
      pending, pendingCache := 0, 0;
      enableCache := new Sources[NUM_CONTEXTS](_ => 0);
      thresholdCache := new u32[NUM_CONTEXTS](_ => 0);
      priorityCache := new u32[NUM_SOURCES](_ => 0);
    }

    method SetSourceLevel(source: nat, level: bool)
      requires Valid() && Mirrored()
      modifies this
      ensures Valid() && Mirrored() && Repr() == old(Repr())
      ensures Locked() == WithLevel(old(Locked()), source, level)
    {
      if source >= NUM_SOURCES {
        return;
      }
      pending := SetSource(pending, source, level);
      pendingCache := pending;
    }

    /** Claim for `ctx`: scan the sources upwards, keeping the best one so far. */
    method ClaimFor(ctx: nat) returns (id: nat)
      requires Valid() && Mirrored() && ctx < NUM_CONTEXTS
      modifies active
      ensures Valid() && Mirrored()
      ensures BestClaim(old(Locked()), ctx, id)
      ensures id == Best(old(Locked()), ctx, NUM_SOURCES)
      ensures id < NUM_SOURCES && Locked() == Claimed(old(Locked()), ctx, id)
    {
      ghost var s := Locked();
      var maxPrio := 0;
      id := 0;
      var i := 1;
      while i < NUM_SOURCES
        invariant 1 <= i <= NUM_SOURCES
        invariant id == Best(s, ctx, i) && maxPrio == (if id == 0 then 0 else s.priority[id])
        invariant Locked() == s
      {
        if Bit(pending, i) && Bit(enable[ctx], i) && priority[i] > threshold[ctx] && !Bit(active[ctx], i) {
          if priority[i] > maxPrio {
            maxPrio := priority[i];
            id := i;
          }
        }
        i := i + 1;
      }
      ClaimIsBest(s, ctx);
      if id != 0 {
        active[ctx] := SetSource(active[ctx], id, true);
      }
    }

    /** The accurate check, under the lock. */
    method IsInterruptPendingFor(ctx: nat) returns (found: bool)
      requires Valid()
      ensures ctx >= NUM_CONTEXTS ==> !found
      ensures ctx < NUM_CONTEXTS ==> (found <==> AnyEligible(Locked(), ctx))
    {
      if ctx >= NUM_CONTEXTS {
        return false;
      }
      var i := 1;
      while i < NUM_SOURCES
        invariant 1 <= i <= NUM_SOURCES
        invariant forall j: nat :: 0 < j < i ==> !Eligible(Locked(), j, ctx)
      {
        if Bit(pending, i) && Bit(enable[ctx], i) && priority[i] > threshold[ctx] && !Bit(active[ctx], i) {
          assert Eligible(Locked(), i, ctx);
          return true;
        }
        i := i + 1;
      }
      return false;
    }

    /** The lock-free check: it reads caches only and sees every candidate. */
    method IsInterruptPendingForFast(ctx: nat) returns (found: bool)
      requires Valid() && Mirrored()
      ensures ctx >= NUM_CONTEXTS ==> !found
      ensures ctx < NUM_CONTEXTS ==> (found <==> AnyCandidate(Locked(), ctx))
    {
      if ctx >= NUM_CONTEXTS {
        return false;
      }
      var i := 1;
      while i < NUM_SOURCES
        invariant 1 <= i <= NUM_SOURCES
        invariant forall j: nat :: 0 < j < i ==> !Candidate(Locked(), j, ctx)
      {
        if Bit(pendingCache, i) && Bit(enableCache[ctx], i) && priorityCache[i] > thresholdCache[ctx] {
          assert Candidate(Locked(), i, ctx);
          return true;
        }
        i := i + 1;
      }
      return false;
    }

    method Store(offset: u64, size: nat, value: u64)
      requires Valid() && Mirrored()
      modifies Repr()
      ensures Valid() && Mirrored() && Repr() == old(Repr())
      ensures Locked() == Stored(old(Locked()), offset, size, value)
    {
      if size != 4 {
        return;
      }
      var val: u32 := value % TWO_32;
      match RegisterAt(offset)
      case Priority(source) =>
        priority[source] := val;
        priorityCache[source] := priority[source];
      case Enable(ctx) =>
        enable[ctx] := val;
        enableCache[ctx] := enable[ctx];
      case Threshold(ctx) =>
        threshold[ctx] := val;
        thresholdCache[ctx] := threshold[ctx];
      case ClaimComplete(ctx) =>
        var id := val % 0x1_0000;
        if 0 < id < NUM_SOURCES {
          active[ctx] := SetSource(active[ctx], id, false);
        }
      case _ =>
    }

    /** Loads answer from the caches, except for the claim register. */
    method Load(offset: u64, size: nat) returns (value: u64)
      requires Valid() && Mirrored()
      modifies active
      ensures Valid() && Mirrored()
      ensures Loaded(Locked(), value) == LoadedFrom(old(Locked()), offset, size)
    {
      if size != 4 {
        return 0;
      }
      match RegisterAt(offset)
      case Priority(source) => value := priorityCache[source];
      case Pending => value := pendingCache;
      case Enable(ctx) => value := enableCache[ctx];
      case Threshold(ctx) => value := thresholdCache[ctx];
      case ClaimComplete(ctx) => value := ClaimFor(ctx);
      case Hole => value := 0;
    }

    /** Write a prefix of a register array from a snapshot; excess values are ignored. */
    method Restore(registers: array<u32>, values: seq<u32>)
      modifies registers
      ensures forall k :: 0 <= k < registers.Length ==> registers[k] == if k < |values| then values[k]
              else old(registers[k])
    {
      var k := 0;
      while k < |values| && k < registers.Length
        invariant 0 <= k <= |values| && k <= registers.Length
        invariant forall j :: 0 <= j < k ==> registers[j] == values[j]
        invariant forall j :: k <= j < registers.Length ==> registers[j] == old(registers[j])
      {
        registers[k] := values[k];
        k := k + 1;
      }
    }

    /** Copy the first `n` registers into their cache. */
    method Sync(registers: array<u32>, cache: array<u32>, n: nat)
      requires registers.Length == cache.Length && n <= cache.Length && registers != cache
      modifies cache
      ensures forall k :: 0 <= k < cache.Length ==> cache[k] == if k < n then registers[k] else old(cache[k])
    {
      for k := 0 to n
        invariant forall j :: 0 <= j < k ==> cache[j] == registers[j]
        invariant forall j :: k <= j < cache.Length ==> cache[j] == old(cache[j])
      {
        cache[k] := registers[k];
      }
    }

    method SetPriority(values: seq<u32>)
      requires Valid() && Mirrored()
      modifies priority, priorityCache
      ensures Valid() && Mirrored()
      ensures Locked() == old(Locked()).(priority := Restored(old(Locked()).priority, values))
    {
      Restore(priority, values);
      Sync(priority, priorityCache, if |values| < NUM_SOURCES then |values| else NUM_SOURCES);
    }

    method SetEnable(values: seq<Sources>)
      requires Valid() && Mirrored()
      modifies enable, enableCache
      ensures Valid() && Mirrored()
      ensures Locked() == old(Locked()).(enable := Restored(old(Locked()).enable, values))
    {
      Restore(enable, values);
      Sync(enable, enableCache, if |values| < NUM_CONTEXTS then |values| else NUM_CONTEXTS);
    }

    method SetThreshold(values: seq<u32>)
      requires Valid() && Mirrored()
      modifies threshold, thresholdCache
      ensures Valid() && Mirrored()
      ensures Locked() == old(Locked()).(threshold := Restored(old(Locked()).threshold, values))
    {
      Restore(threshold, values);
      Sync(threshold, thresholdCache, if |values| < NUM_CONTEXTS then |values| else NUM_CONTEXTS);
    }

    /** Active bits are not cached. */
    method SetActive(values: seq<Sources>)
      requires Valid() && Mirrored()
      modifies active
      ensures Valid() && Mirrored()
      ensures Locked() == old(Locked()).(active := Restored(old(Locked()).active, values))
    {
      Restore(active, values);
    }

    method SetPending(value: Sources)
      requires Valid() && Mirrored()
      modifies this`pending, this`pendingCache
      ensures Valid() && Mirrored()
      ensures Locked() == old(Locked()).(pending := value)
    {
      pending := value;
      pendingCache := value;
    }
  }

  /** A register array with a prefix replaced by snapshot values. */
  function Restored(registers: seq<u32>, values: seq<u32>): (r: seq<u32>)
    ensures |r| == |registers|
  {
    seq<u32>(|registers|, k requires 0 <= k < |registers| => RestoredAt(registers, values, k))
  }

  function RestoredAt(registers: seq<u32>, values: seq<u32>, k: nat): u32
    requires k < |registers|
  {
    if k < |values| then values[k] else registers[k]
  }
}
