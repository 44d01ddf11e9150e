/** The block-enabled step of a hart: block cache, block chaining, and the interpreter with its decode
    cache as the fallback. */
module Engine {
  import opened Base
  import D = Decoder
  import opened HartState
  import T = Traps
  import I = Interpreter
  import K = Block

  const BLOCK_CACHE_SIZE: nat := 4096
  const DECODE_CACHE_SIZE: nat := 256
  const MAX_CHAIN_DEPTH: nat := 16

  datatype DecodeEntry = DecodeEntry(pc: u64, raw: u32, op: D.Op)

  /** Direct-mapped; an absent index is an empty slot. */
  type DecodeCache = map<nat, DecodeEntry>

  /** A hart with its caches. */
  datatype Engine = Engine(s: I.State, blocks: map<u64, K.Block>, generation: nat, decoded: DecodeCache)

  /** What the host decides from outside: whether blocks are enabled, and which cached blocks go when the
      cache is full. */
  datatype Choice = Choice(useBlocks: bool, evicted: set<u64>)

  // ---- Caches ----------------------------------------------------------------------------------------------

  /** Only blocks of the current generation are found. */
  function Lookup(x: Engine, pc: u64): Option<K.Block> {
    if pc in x.blocks && x.blocks[pc].generation == x.generation then Some(x.blocks[pc]) else None
  }

  function Inserted(blocks: map<u64, K.Block>, b: K.Block, evicted: set<u64>): map<u64, K.Block> {
    (if |blocks| >= BLOCK_CACHE_SIZE then blocks - evicted else blocks)[b.startPc := b]
  }

  function DecodeSlot(pc: u64): nat {
    pc % DECODE_CACHE_SIZE
  }

  function CachedOp(d: DecodeCache, pc: u64, raw: u32): Option<D.Op> {
    var slot := DecodeSlot(pc);
    if slot in d && d[slot].pc == pc && d[slot].raw == raw then Some(d[slot].op) else None
  }

  // ---- The interpreter with its decode cache ------------------------------------------------------------------

  /** Result of one call: the engine afterwards, the trap reported, and the number of instructions
      completed or trapped on. */
  datatype Stepped = Stepped(x: Engine, err: Option<Trap>, ran: nat)

  /** An executed SFENCE.VMA, or an executed write to satp, empties the decode cache. */
  predicate FlushesDecode(op: D.Op, raw: u32, err: Option<Trap>) {
    && err.None? && op.System?
    && if op.funct3 == 0 then I.IsSfenceVma(raw)
       else op.imm % 0x1000 == CSR_SATP && (op.funct3 == 1 || op.funct3 == 5 || op.rs1 != 0)
  }

  /** Execute a decoded instruction in the fetched state `u`; `d` is the decode cache after the lookup. */
  function Executed(x: Engine, u: I.State, op: D.Op, raw: u32, len: nat, d: DecodeCache): Stepped {
    var r := I.Execute(op, raw, len, u);
    Stepped(x.(s := r.next, decoded := if FlushesDecode(op, raw, r.err) then map[] else d), r.err, 1)
  }

  function StepSingle(x: Engine): Stepped {
    var pc := x.s.hart.pc;
    match I.FetchAndExpand(x.s)
    case NotFetched(u, t) => var r := I.Fault(u, t); Stepped(x.(s := r.next), r.err, 1)
    case Fetched(u, raw, len) =>
      match CachedOp(x.decoded, pc, raw)
      case Some(op) => Executed(x, u, op, raw, len, x.decoded)
      case None =>
        match D.Decode(raw)
        case Err(t) => var r := I.Fault(u, t); Stepped(x.(s := r.next), r.err, 1)
        case Ok(op) => Executed(x, u, op, raw, len, x.decoded[DecodeSlot(pc) := DecodeEntry(pc, raw, op)])
  }

  // ---- Blocks ---------------------------------------------------------------------------------------------------

  /** A chain of blocks is over, or hands the instruction at pc to the interpreter. */
  datatype Outcome = Finished(x: Engine, err: Option<Trap>, ran: nat) | Fallback(x: Engine, ran: nat)

  /** Execute `b` as the block after `chain` others, and follow its recorded successor if the run went there. */
  function RunChained(x: Engine, b: K.Block, chain: nat, evicted: set<u64>, ran: nat): (o: Outcome)
    requires chain < MAX_CHAIN_DEPTH
    ensures o.ran >= ran
    decreases MAX_CHAIN_DEPTH - chain, 0
  {
    var total := ran + K.Steps(b, 0, x.s);
    match K.RunBlock(b, x.s)
    case Trapped(u, t, faultPc) =>
      Finished(x.(s := u.(hart := T.HandleTrap(u.hart, t, faultPc))), Some(t), total)
    case Exit(u, pc) => Fallback(x.(s := u.(hart := u.hart.(pc := pc))), total)
    case Continue(u, pc) =>
      var y := x.(s := u.(hart := u.hart.(pc := pc)));
      if chain + 1 < MAX_CHAIN_DEPTH && b.next == Some(pc) then TryBlock(y, chain + 1, evicted, total)
      else Finished(y, None, total)
  }

  /** Look the block at pc up, or, at the start of a chain, compile it. */
  function TryBlock(x: Engine, chain: nat, evicted: set<u64>, ran: nat): (o: Outcome)
    requires chain < MAX_CHAIN_DEPTH
    ensures o.ran >= ran
    decreases MAX_CHAIN_DEPTH - chain, 1
  {
    match Lookup(x, x.s.hart.pc)
    case Some(b) => RunChained(x, b, chain, evicted, ran)
    case None =>
      if chain > 0 then Finished(x, None, ran)
      else
        match K.Compile(x.s, x.s.hart.pc, x.generation)
        case CompileTrap(u, t) => Finished(x.(s := I.Fault(u, t).next), Some(t), ran + 1)
        case Compiled(u, b) => RunChained(x.(s := u, blocks := Inserted(x.blocks, b, evicted)), b, 0, evicted, ran)
  }

  /** One call of `step` in which interrupts are not polled. */
  function Step(x: Engine, choice: Choice): Stepped {
    if !choice.useBlocks then StepSingle(x)
    else
      match TryBlock(x, 0, choice.evicted, 0)
      case Finished(y, err, ran) => Stepped(y, err, ran)
      case Fallback(y, ran) => var r := StepSingle(y); r.(ran := ran + r.ran)
  }

  /** The engine after a run of steps, the traps reported on the way, and the instructions covered. */
  datatype Ran = Ran(x: Engine, traps: seq<Trap>, ran: nat)

  function Reported(err: Option<Trap>): seq<Trap> {
    if err.Some? then [err.value] else []
  }

  function Run(x: Engine, choices: seq<Choice>): Ran
    decreases |choices|
  {
    if choices == [] then Ran(x, [], 0)
    else
      var r := Step(x, choices[0]);
      var rest := Run(r.x, choices[1..]);
      Ran(rest.x, Reported(r.err) + rest.traps, r.ran + rest.ran)
  }
}
