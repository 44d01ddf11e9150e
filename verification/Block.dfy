/** Superblocks: compiling straight-line code into micro-operations, and running the result. */
module Block {
  import opened Base
  import B = Bits
  import opened Memory
  import M = Mmu
  import D = Decoder
  import opened HartState
  import opened Micro
  import I = Interpreter

  const MAX_BLOCK_SIZE: nat := 64

  /** A compiled block; `next` is the successor known when it was compiled. */
  datatype Block = Block(startPc: u64, startPa: u64, ops: seq<MicroOp>, byteLen: nat, next: Option<u64>,
                         generation: nat)

  // ---- Running ---------------------------------------------------------------------------------------

  /** One micro-operation falls through, leaves the block for a known pc, traps, or hands its
      instruction back to the interpreter. */
  datatype Out =
    | Next(s: I.State)
    | Continue(s: I.State, pc: u64)
    | Trapped(s: I.State, trap: Trap, faultPc: u64)
    | Exit(s: I.State, pc: u64)

  datatype RegWrite = RegWrite(rd: Reg, v: u64)

  function Flag(b: bool): u64 {
    if b then 1 else 0
  }

  /** MULW in blocks: a 64-bit product. */
  function MulwNarrow(a: u64, b: u64): u64 {
    B.Sext32(B.Wrap(B.I32(a) * B.I32(b), TWO_64))
  }

  /** DIVW and the other word divisions in blocks: entirely in 32 bits. */
  function DivwNarrow(a: u64, b: u64): u64 {
    var x, y := B.I32(a), B.I32(b);
    if y == 0 then ToU64(-1)
    else if x == I.I32_MIN && y == -1 then ToU64(I.I32_MIN)
    else ToU64(B.Quot(x, y))
  }

  function DivuwNarrow(a: u64, b: u64): u64 {
    var x, y := B.U32(a), B.U32(b);
    if y == 0 then B.Sext32(TWO_32 - 1) else B.Sext32(x / y)
  }

  function RemwNarrow(a: u64, b: u64): u64 {
    var x, y := B.I32(a), B.I32(b);
    if y == 0 then ToU64(x)
    else if x == I.I32_MIN && y == -1 then 0
    else ToU64(B.Rem(x, y))
  }

  function RemuwNarrow(a: u64, b: u64): u64 {
    var x, y := B.U32(a), B.U32(b);
    if y == 0 then B.Sext32(x) else B.Sext32(x % y)
  }

  /** The register write of an operation that only computes.  Source registers are read directly,
      register 0 included; writes to register 0 are dropped, so the remaining operations write nothing. */
  function AluWrite(op: MicroOp, base: u64, r: Regs): RegWrite {
    match op
    case Addi(rd, rs1, imm) => RegWrite(rd, WrappingAdd(r[rs1], ToU64(imm)))
    case Add(rd, rs1, rs2) => RegWrite(rd, WrappingAdd(r[rs1], r[rs2]))
    case Sub(rd, rs1, rs2) => RegWrite(rd, WrappingSub(r[rs1], r[rs2]))
    case Xori(rd, rs1, imm) => RegWrite(rd, B.Xor(r[rs1], ToU64(imm)))
    case Ori(rd, rs1, imm) => RegWrite(rd, B.Or(r[rs1], ToU64(imm)))
    case Andi(rd, rs1, imm) => RegWrite(rd, B.And(r[rs1], ToU64(imm)))
    case Xor(rd, rs1, rs2) => RegWrite(rd, B.Xor(r[rs1], r[rs2]))
    case Or(rd, rs1, rs2) => RegWrite(rd, B.Or(r[rs1], r[rs2]))
    case And(rd, rs1, rs2) => RegWrite(rd, B.And(r[rs1], r[rs2]))
    case Slli(rd, rs1, shamt) => RegWrite(rd, B.Shl(r[rs1], shamt))
    case Srli(rd, rs1, shamt) => RegWrite(rd, B.Shr(r[rs1], shamt))
    case Srai(rd, rs1, shamt) => RegWrite(rd, B.Sar(r[rs1], shamt))
    case Sll(rd, rs1, rs2) => RegWrite(rd, B.Shl(r[rs1], r[rs2] % 0x40))
    case Srl(rd, rs1, rs2) => RegWrite(rd, B.Shr(r[rs1], r[rs2] % 0x40))
    case Sra(rd, rs1, rs2) => RegWrite(rd, B.Sar(r[rs1], r[rs2] % 0x40))
    case Slti(rd, rs1, imm) => RegWrite(rd, Flag(B.I64(r[rs1]) < imm))
    case Sltiu(rd, rs1, imm) => RegWrite(rd, Flag(r[rs1] < ToU64(imm)))
    case Slt(rd, rs1, rs2) => RegWrite(rd, Flag(B.I64(r[rs1]) < B.I64(r[rs2])))
    case Sltu(rd, rs1, rs2) => RegWrite(rd, Flag(r[rs1] < r[rs2]))
    case Lui(rd, imm) => RegWrite(rd, ToU64(imm))
    case Auipc(rd, imm, off) => RegWrite(rd, WrappingAdd(ToU64(base + off), ToU64(imm)))
    case Addiw(rd, rs1, imm) => RegWrite(rd, B.Sext32(WrappingAdd(r[rs1], ToU64(imm))))
    case Addw(rd, rs1, rs2) => RegWrite(rd, B.Sext32(WrappingAdd(r[rs1], r[rs2])))
    case Subw(rd, rs1, rs2) => RegWrite(rd, B.Sext32(WrappingSub(r[rs1], r[rs2])))
    case Slliw(rd, rs1, shamt) => RegWrite(rd, B.Sext32(B.U32(r[rs1]) * B.Pow2(shamt)))
    case Srliw(rd, rs1, shamt) => RegWrite(rd, B.Sext32(B.U32(r[rs1]) / B.Pow2(shamt)))
    case Sraiw(rd, rs1, shamt) => RegWrite(rd, ToU64(B.I32(r[rs1]) / B.Pow2(shamt)))
    case Sllw(rd, rs1, rs2) => RegWrite(rd, B.Sext32(B.U32(r[rs1]) * B.Pow2(r[rs2] % 0x20)))
    case Srlw(rd, rs1, rs2) => RegWrite(rd, B.Sext32(B.U32(r[rs1]) / B.Pow2(r[rs2] % 0x20)))
    case Sraw(rd, rs1, rs2) => RegWrite(rd, ToU64(B.I32(r[rs1]) / B.Pow2(r[rs2] % 0x20)))
    case Mul(rd, rs1, rs2) => RegWrite(rd, ToU64(B.I64(r[rs1]) * B.I64(r[rs2])))
    case Mulh(rd, rs1, rs2) => RegWrite(rd, ToU64(B.I64(r[rs1]) * B.I64(r[rs2]) / TWO_64))
    case Mulhsu(rd, rs1, rs2) => RegWrite(rd, ToU64(B.I64(r[rs1]) * r[rs2] / TWO_64))
    case Mulhu(rd, rs1, rs2) => RegWrite(rd, ToU64(r[rs1] * r[rs2] / TWO_64))
    case Div(rd, rs1, rs2) =>
      var a, b := B.I64(r[rs1]), B.I64(r[rs2]);
      RegWrite(rd, if b == 0 then ToU64(-1)
                   else if a == I.I64_MIN && b == -1 then ToU64(I.I64_MIN)
                   else ToU64(B.Quot(a, b)))
    case Divu(rd, rs1, rs2) =>
      RegWrite(rd, if r[rs2] == 0 then TWO_64 - 1 else ToU64(r[rs1] / r[rs2]))
    case Rem(rd, rs1, rs2) =>
      var a, b := B.I64(r[rs1]), B.I64(r[rs2]);
      RegWrite(rd, if b == 0 then ToU64(a)
                   else if a == I.I64_MIN && b == -1 then 0
                   else ToU64(B.Rem(a, b)))
    case Remu(rd, rs1, rs2) =>
      RegWrite(rd, if r[rs2] == 0 then r[rs1] else r[rs1] % r[rs2])
    case Mulw(rd, rs1, rs2) => RegWrite(rd, MulwNarrow(r[rs1], r[rs2]))
    case Divw(rd, rs1, rs2) => RegWrite(rd, DivwNarrow(r[rs1], r[rs2]))
    case Divuw(rd, rs1, rs2) => RegWrite(rd, DivuwNarrow(r[rs1], r[rs2]))
    case Remw(rd, rs1, rs2) => RegWrite(rd, RemwNarrow(r[rs1], r[rs2]))
    case Remuw(rd, rs1, rs2) => RegWrite(rd, RemuwNarrow(r[rs1], r[rs2]))
    case _ => RegWrite(0, 0)
  }

  function LoadOp(s: I.State, rd: Reg, rs1: Reg, imm: int, w: Width, signed: bool, pc: u64): Out {
    var addr := WrappingAdd(s.hart.regs[rs1], ToU64(imm));
    var t := I.Translate(s, addr, M.Load);
    if t.res.Err? then Trapped(t.s, t.res.trap, pc)
    else
      match Read(t.s.mem, t.res.value, w)
      case Err(e) => Trapped(t.s, e, pc)
      case Ok(v) => Next(I.SetReg(t.s, rd, if signed then I.SextTo64(v, w) else v))
  }

  /** The reservation is given up only after the store has succeeded. */
  function StoreOp(s: I.State, rs1: Reg, rs2: Reg, imm: int, w: Width, pc: u64): Out {
    var addr := WrappingAdd(s.hart.regs[rs1], ToU64(imm));
    var v := s.hart.regs[rs2];
    var t := I.Translate(s, addr, M.Store);
    if t.res.Err? then Trapped(t.s, t.res.trap, pc)
    else
      match Write(t.s.mem, t.res.value, w, v)
      case Err(e) => Trapped(t.s, e, pc)
      case Ok(m) =>
        Next(t.s.(mem := m, hart := t.s.hart.(reservation := ClearConflict(t.s.hart.reservation, addr))))
  }

  function BranchOp(s: I.State, taken: bool, pc: u64, imm: int, len: nat): Out {
    Continue(s, if taken then WrappingAdd(pc, ToU64(imm)) else ToU64(pc + len))
  }

  function MicroStep(op: MicroOp, base: u64, s: I.State): Out {
    var pc := ToU64(base + PcOffset(op));
    match KindOf(op)
    case Leave => Exit(s, pc)
    case Transfer => TransferOp(op, pc, s)
    case Access => AccessOp(op, pc, s)
    case Nothing => Next(s)
    case Compute => var w := AluWrite(op, base, s.hart.regs); Next(I.SetReg(s, w.rd, w.v))
  }

  function AccessOp(op: MicroOp, pc: u64, s: I.State): Out
    requires KindOf(op) == Access
  {
    match op
    case Lb(rd, rs1, imm, _) => LoadOp(s, rd, rs1, imm, W8, true, pc)
    case Lbu(rd, rs1, imm, _) => LoadOp(s, rd, rs1, imm, W8, false, pc)
    case Lh(rd, rs1, imm, _) => LoadOp(s, rd, rs1, imm, W16, true, pc)
    case Lhu(rd, rs1, imm, _) => LoadOp(s, rd, rs1, imm, W16, false, pc)
    case Lw(rd, rs1, imm, _) => LoadOp(s, rd, rs1, imm, W32, true, pc)
    case Lwu(rd, rs1, imm, _) => LoadOp(s, rd, rs1, imm, W32, false, pc)
    case Ld(rd, rs1, imm, _) => LoadOp(s, rd, rs1, imm, W64, false, pc)
    case Sb(rs1, rs2, imm, _) => StoreOp(s, rs1, rs2, imm, W8, pc)
    case Sh(rs1, rs2, imm, _) => StoreOp(s, rs1, rs2, imm, W16, pc)
    case Sw(rs1, rs2, imm, _) => StoreOp(s, rs1, rs2, imm, W32, pc)
    case Sd(rs1, rs2, imm, _) => StoreOp(s, rs1, rs2, imm, W64, pc)
  }

  function TransferOp(op: MicroOp, pc: u64, s: I.State): (o: Out)
    requires KindOf(op) == Transfer
    ensures o.Continue?
  {
    var r := s.hart.regs;
    match op
    case Jal(rd, imm, _, len) => Continue(I.SetReg(s, rd, ToU64(pc + len)), WrappingAdd(pc, ToU64(imm)))
    case Jalr(rd, rs1, imm, _, len) =>
      var sum := WrappingAdd(r[rs1], ToU64(imm));
      Continue(I.SetReg(s, rd, ToU64(pc + len)), sum - sum % 2)
    case Beq(rs1, rs2, imm, _, len) => BranchOp(s, r[rs1] == r[rs2], pc, imm, len)
    case Bne(rs1, rs2, imm, _, len) => BranchOp(s, r[rs1] != r[rs2], pc, imm, len)
    case Blt(rs1, rs2, imm, _, len) => BranchOp(s, B.I64(r[rs1]) < B.I64(r[rs2]), pc, imm, len)
    case Bge(rs1, rs2, imm, _, len) => BranchOp(s, B.I64(r[rs1]) >= B.I64(r[rs2]), pc, imm, len)
    case Bltu(rs1, rs2, imm, _, len) => BranchOp(s, r[rs1] < r[rs2], pc, imm, len)
    case Bgeu(rs1, rs2, imm, _, len) => BranchOp(s, r[rs1] >= r[rs2], pc, imm, len)
  }

  /** Run the operations from index `idx` on. */
  function RunOps(b: Block, idx: nat, s: I.State): (o: Out)
    requires idx <= |b.ops|
    ensures !o.Next?
    decreases |b.ops| - idx
  {
    if idx == |b.ops| then Continue(s, ToU64(b.startPc + b.byteLen))
    else
      var o := MicroStep(b.ops[idx], b.startPc, s);
      if o.Next? then RunOps(b, idx + 1, o.s) else o
  }

  function RunBlock(b: Block, s: I.State): Out {
    RunOps(b, 0, s)
  }

  /** Instructions a run of the block from index `idx` completes or traps on. */
  function Steps(b: Block, idx: nat, s: I.State): (n: nat)
    requires idx <= |b.ops|
    ensures n <= |b.ops| - idx
    decreases |b.ops| - idx
  {
    if idx == |b.ops| then 0
    else
      match MicroStep(b.ops[idx], b.startPc, s)
      case Next(t) => 1 + Steps(b, idx + 1, t)
      case Continue(_, _) => 1
      case Trapped(_, _, _) => 1
      case Exit(_, _) => 0
  }

  // ---- Compiling ---------------------------------------------------------------------------------------

  /** The compiler's fetch: one translation, reused if the word read fails. */
  function FetchInsn(s: I.State, pc: u64): I.Fetch {
    if pc % 2 != 0 then I.NotFetched(s, InstructionAddressMisaligned(pc))
    else
      var at := I.Translate(s, pc, M.Instruction);
      if at.res.Err? then I.NotFetched(at.s, at.res.trap)
      else
        var word := Read(at.s.mem, at.res.value, W32);
        if pc % 4 == 0 && word.Ok? then
          if word.value % 4 != 3 then I.Expanded(at.s, word.value % 0x1_0000) else I.Fetched(at.s, word.value, 4)
        else
          var half := Read(at.s.mem, at.res.value, W16);
          if half.Err? then I.NotFetched(at.s, I.FetchTrap(half.trap, pc))
          else if half.value % 4 != 3 then I.Expanded(at.s, half.value)
          else
            var high := I.Translate(at.s, WrappingAdd(pc, 2), M.Instruction);
            if high.res.Err? then I.NotFetched(high.s, high.res.trap)
            else
              var rest := Read(high.s.mem, high.res.value, W16);
              if rest.Err? then I.NotFetched(high.s, I.FetchTrap(rest.trap, pc))
              else I.Fetched(high.s, half.value + rest.value * 0x1_0000, 4)
  }

  /** A block, or the trap met before the first operation; either way translation may have filled the
      TLB and marked page-table entries. */
  datatype Compiled = Compiled(s: I.State, block: Block) | CompileTrap(s: I.State, trap: Trap)

  function NextPage(pc: u64): u64 {
    ToU64(pc - pc % 4096 + 4096)
  }

  /** What one pass of the compilation loop decides. */
  datatype Move = Done(block: Block) | Refuse(trap: Trap) | More(block: Block, pc: u64)

  /** A fetch or decode trap ends a non-empty block and is left for the next compilation to report. */
  function Stopped(b: Block, t: Trap): Move {
    if |b.ops| > 0 then Done(b) else Refuse(t)
  }

  function Appended(b: Block, op: MicroOp, len: nat): Block {
    b.(ops := b.ops + [op], byteLen := b.byteLen + len)
  }

  /** Decode and append the instruction found at `pc`, byte offset `off`, unless the block is full. */
  function Advance(b: Block, insn: u32, len: nat, pc: u64, off: nat): (v: Move)
    ensures v.More? ==> |v.block.ops| == |b.ops| + 1 <= MAX_BLOCK_SIZE && v.pc == ToU64(pc + len) < NextPage(b.startPc)
  {
    match D.Decode(insn)
    case Err(t) => Stopped(b, t)
    case Ok(op) =>
      var micro := Transcode(op, off, len);
      if |b.ops| >= MAX_BLOCK_SIZE then Done(b.(next := Some(pc)))
      else
        var longer := Appended(b, micro, len);
        var after := ToU64(pc + len);
        if IsTerminator(micro) then Done(longer.(next := JumpTarget(op, pc)))
        else if after >= NextPage(b.startPc) then Done(longer.(next := Some(after)))
        else More(longer, after)
  }

  /** The compilation loop; `b` holds the operations so far. */
  function CompileFrom(s: I.State, b: Block, pc: u64, off: nat): Compiled
    requires |b.ops| <= MAX_BLOCK_SIZE
    decreases MAX_BLOCK_SIZE - |b.ops|
  {
    var f := FetchInsn(s, pc);
    match (if f.Fetched? then Advance(b, f.insn, f.len, pc, off) else Stopped(b, f.trap))
    case Done(block) => Compiled(f.s, block)
    case Refuse(t) => CompileTrap(f.s, t)
    case More(longer, after) => CompileFrom(f.s, longer, after, off + f.len)
  }

  /** The successor of a direct jump. */
  function JumpTarget(op: D.Op, pc: u64): Option<u64> {
    if op.Jal? then Some(WrappingAdd(pc, ToU64(op.imm))) else None
  }

  function Compile(s: I.State, pc: u64, generation: nat): Compiled {
    var t := I.Translate(s, pc, M.Instruction);
    match t.res
    case Err(e) => CompileTrap(t.s, e)
    case Ok(pa) => CompileFrom(t.s, Block(pc, pa, [], 0, None, generation), pc, 0)
  }
}
