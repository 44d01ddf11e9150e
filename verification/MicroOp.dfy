/** The pre-decoded micro-operations superblocks are made of, and the translation from decoded
    instructions. */
module Micro {
  import opened Base
  import Bits
  import Decoder

  type Reg = Decoder.Reg

  datatype MicroOp =
    | Addi(rd: Reg, rs1: Reg, imm: int)
    | Xori(rd: Reg, rs1: Reg, imm: int)
    | Ori(rd: Reg, rs1: Reg, imm: int)
    | Andi(rd: Reg, rs1: Reg, imm: int)
    | Slti(rd: Reg, rs1: Reg, imm: int)
    | Sltiu(rd: Reg, rs1: Reg, imm: int)
    | Slli(rd: Reg, rs1: Reg, shamt: nat)
    | Srli(rd: Reg, rs1: Reg, shamt: nat)
    | Srai(rd: Reg, rs1: Reg, shamt: nat)
    | Add(rd: Reg, rs1: Reg, rs2: Reg)
    | Sub(rd: Reg, rs1: Reg, rs2: Reg)
    | Xor(rd: Reg, rs1: Reg, rs2: Reg)
    | Or(rd: Reg, rs1: Reg, rs2: Reg)
    | And(rd: Reg, rs1: Reg, rs2: Reg)
    | Sll(rd: Reg, rs1: Reg, rs2: Reg)
    | Srl(rd: Reg, rs1: Reg, rs2: Reg)
    | Sra(rd: Reg, rs1: Reg, rs2: Reg)
    | Slt(rd: Reg, rs1: Reg, rs2: Reg)
    | Sltu(rd: Reg, rs1: Reg, rs2: Reg)
    | Addiw(rd: Reg, rs1: Reg, imm: int)
    | Slliw(rd: Reg, rs1: Reg, shamt: nat)
    | Srliw(rd: Reg, rs1: Reg, shamt: nat)
    | Sraiw(rd: Reg, rs1: Reg, shamt: nat)
    | Addw(rd: Reg, rs1: Reg, rs2: Reg)
    | Subw(rd: Reg, rs1: Reg, rs2: Reg)
    | Sllw(rd: Reg, rs1: Reg, rs2: Reg)
    | Srlw(rd: Reg, rs1: Reg, rs2: Reg)
    | Sraw(rd: Reg, rs1: Reg, rs2: Reg)
    | Mul(rd: Reg, rs1: Reg, rs2: Reg)
    | Mulh(rd: Reg, rs1: Reg, rs2: Reg)
    | Mulhsu(rd: Reg, rs1: Reg, rs2: Reg)
    | Mulhu(rd: Reg, rs1: Reg, rs2: Reg)
    | Div(rd: Reg, rs1: Reg, rs2: Reg)
    | Divu(rd: Reg, rs1: Reg, rs2: Reg)
    | Rem(rd: Reg, rs1: Reg, rs2: Reg)
    | Remu(rd: Reg, rs1: Reg, rs2: Reg)
    | Mulw(rd: Reg, rs1: Reg, rs2: Reg)
    | Divw(rd: Reg, rs1: Reg, rs2: Reg)
    | Divuw(rd: Reg, rs1: Reg, rs2: Reg)
    | Remw(rd: Reg, rs1: Reg, rs2: Reg)
    | Remuw(rd: Reg, rs1: Reg, rs2: Reg)
    | Lui(rd: Reg, imm: int)
    | Auipc(rd: Reg, imm: int, pcOffset: nat)
    | Lb(rd: Reg, rs1: Reg, imm: int, pcOffset: nat)
    | Lbu(rd: Reg, rs1: Reg, imm: int, pcOffset: nat)
    | Lh(rd: Reg, rs1: Reg, imm: int, pcOffset: nat)
    | Lhu(rd: Reg, rs1: Reg, imm: int, pcOffset: nat)
    | Lw(rd: Reg, rs1: Reg, imm: int, pcOffset: nat)
    | Lwu(rd: Reg, rs1: Reg, imm: int, pcOffset: nat)
    | Ld(rd: Reg, rs1: Reg, imm: int, pcOffset: nat)
    | Sb(rs1: Reg, rs2: Reg, imm: int, pcOffset: nat)
    | Sh(rs1: Reg, rs2: Reg, imm: int, pcOffset: nat)
    | Sw(rs1: Reg, rs2: Reg, imm: int, pcOffset: nat)
    | Sd(rs1: Reg, rs2: Reg, imm: int, pcOffset: nat)
    | Jal(rd: Reg, imm: int, pcOffset: nat, insnLen: nat)
    | Jalr(rd: Reg, rs1: Reg, imm: int, pcOffset: nat, insnLen: nat)
    | Beq(rs1: Reg, rs2: Reg, imm: int, pcOffset: nat, insnLen: nat)
    | Bne(rs1: Reg, rs2: Reg, imm: int, pcOffset: nat, insnLen: nat)
    | Blt(rs1: Reg, rs2: Reg, imm: int, pcOffset: nat, insnLen: nat)
    | Bge(rs1: Reg, rs2: Reg, imm: int, pcOffset: nat, insnLen: nat)
    | Bltu(rs1: Reg, rs2: Reg, imm: int, pcOffset: nat, insnLen: nat)
    | Bgeu(rs1: Reg, rs2: Reg, imm: int, pcOffset: nat, insnLen: nat)
    | Ecall(pcOffset: nat)
    | Ebreak(pcOffset: nat)
    | Csrrw(rd: Reg, rs1: Reg, csr: int, pcOffset: nat)
    | Csrrs(rd: Reg, rs1: Reg, csr: int, pcOffset: nat)
    | Csrrc(rd: Reg, rs1: Reg, csr: int, pcOffset: nat)
    | Csrrwi(rd: Reg, zimm: nat, csr: int, pcOffset: nat)
    | Csrrsi(rd: Reg, zimm: nat, csr: int, pcOffset: nat)
    | Csrrci(rd: Reg, zimm: nat, csr: int, pcOffset: nat)
    | Mret(pcOffset: nat)
    | Sret(pcOffset: nat)
    | Wfi(pcOffset: nat)
    | SfenceVma(pcOffset: nat)
    | Fence
    | LrW(rd: Reg, rs1: Reg, pcOffset: nat)
    | LrD(rd: Reg, rs1: Reg, pcOffset: nat)
    | ScW(rd: Reg, rs1: Reg, rs2: Reg, pcOffset: nat)
    | ScD(rd: Reg, rs1: Reg, rs2: Reg, pcOffset: nat)
    | AmoSwap(rd: Reg, rs1: Reg, rs2: Reg, isWord: bool, pcOffset: nat)
    | AmoAdd(rd: Reg, rs1: Reg, rs2: Reg, isWord: bool, pcOffset: nat)
    | AmoXor(rd: Reg, rs1: Reg, rs2: Reg, isWord: bool, pcOffset: nat)
    | AmoAnd(rd: Reg, rs1: Reg, rs2: Reg, isWord: bool, pcOffset: nat)
    | AmoOr(rd: Reg, rs1: Reg, rs2: Reg, isWord: bool, pcOffset: nat)
    | AmoMin(rd: Reg, rs1: Reg, rs2: Reg, isWord: bool, pcOffset: nat)
    | AmoMax(rd: Reg, rs1: Reg, rs2: Reg, isWord: bool, pcOffset: nat)
    | AmoMinu(rd: Reg, rs1: Reg, rs2: Reg, isWord: bool, pcOffset: nat)
    | AmoMaxu(rd: Reg, rs1: Reg, rs2: Reg, isWord: bool, pcOffset: nat)

  /** What executing an operation involves. */
  datatype Kind = Compute | Access | Transfer | Leave | Nothing

  function KindOf(op: MicroOp): Kind {
    match op
    case Lb(_, _, _, _) => Access
    case Lbu(_, _, _, _) => Access
    case Lh(_, _, _, _) => Access
    case Lhu(_, _, _, _) => Access
    case Lw(_, _, _, _) => Access
    case Lwu(_, _, _, _) => Access
    case Ld(_, _, _, _) => Access
    case Sb(_, _, _, _) => Access
    case Sh(_, _, _, _) => Access
    case Sw(_, _, _, _) => Access
    case Sd(_, _, _, _) => Access
    case Jal(_, _, _, _) => Transfer
    case Jalr(_, _, _, _, _) => Transfer
    case Beq(_, _, _, _, _) => Transfer
    case Bne(_, _, _, _, _) => Transfer
    case Blt(_, _, _, _, _) => Transfer
    case Bge(_, _, _, _, _) => Transfer
    case Bltu(_, _, _, _, _) => Transfer
    case Bgeu(_, _, _, _, _) => Transfer
    case Ecall(_) => Leave
    case Ebreak(_) => Leave
    case Csrrw(_, _, _, _) => Leave
    case Csrrs(_, _, _, _) => Leave
    case Csrrc(_, _, _, _) => Leave
    case Csrrwi(_, _, _, _) => Leave
    case Csrrsi(_, _, _, _) => Leave
    case Csrrci(_, _, _, _) => Leave
    case Mret(_) => Leave
    case Sret(_) => Leave
    case Wfi(_) => Leave
    case SfenceVma(_) => Leave
    case LrW(_, _, _) => Leave
    case LrD(_, _, _) => Leave
    case ScW(_, _, _, _) => Leave
    case ScD(_, _, _, _) => Leave
    case AmoSwap(_, _, _, _, _) => Leave
    case AmoAdd(_, _, _, _, _) => Leave
    case AmoXor(_, _, _, _, _) => Leave
    case AmoAnd(_, _, _, _, _) => Leave
    case AmoOr(_, _, _, _, _) => Leave
    case AmoMin(_, _, _, _, _) => Leave
    case AmoMax(_, _, _, _, _) => Leave
    case AmoMinu(_, _, _, _, _) => Leave
    case AmoMaxu(_, _, _, _, _) => Leave
    case Fence => Nothing
    case _ => Compute
  }

  /** WFI is handed back to the interpreter but does not end the block being compiled. */
  predicate IsTerminator(op: MicroOp) {
    KindOf(op) == Transfer || (KindOf(op) == Leave && !op.Wfi?)
  }

  /** Offset of the instruction from the start of its block, where the operation needs it. */
  function PcOffset(op: MicroOp): nat {
    if KindOf(op) == Access || KindOf(op) == Transfer || KindOf(op) == Leave then op.pcOffset else 0
  }

  function TranscodeBranch(rs1: Reg, rs2: Reg, imm: int, funct3: int, off: nat, len: nat): MicroOp {
    if funct3 == 0 then Beq(rs1, rs2, imm, off, len)
    else if funct3 == 1 then Bne(rs1, rs2, imm, off, len)
    else if funct3 == 4 then Blt(rs1, rs2, imm, off, len)
    else if funct3 == 5 then Bge(rs1, rs2, imm, off, len)
    else if funct3 == 6 then Bltu(rs1, rs2, imm, off, len)
    else if funct3 == 7 then Bgeu(rs1, rs2, imm, off, len)
    else Fence
  }

  function TranscodeLoad(rd: Reg, rs1: Reg, imm: int, funct3: int, off: nat): MicroOp {
    if funct3 == 0 then Lb(rd, rs1, imm, off)
    else if funct3 == 1 then Lh(rd, rs1, imm, off)
    else if funct3 == 2 then Lw(rd, rs1, imm, off)
    else if funct3 == 3 then Ld(rd, rs1, imm, off)
    else if funct3 == 4 then Lbu(rd, rs1, imm, off)
    else if funct3 == 5 then Lhu(rd, rs1, imm, off)
    else if funct3 == 6 then Lwu(rd, rs1, imm, off)
    else Fence
  }

  function TranscodeStore(rs1: Reg, rs2: Reg, imm: int, funct3: int, off: nat): MicroOp {
    if funct3 == 0 then Sb(rs1, rs2, imm, off)
    else if funct3 == 1 then Sh(rs1, rs2, imm, off)
    else if funct3 == 2 then Sw(rs1, rs2, imm, off)
    else if funct3 == 3 then Sd(rs1, rs2, imm, off)
    else Fence
  }

  function TranscodeOpImm(rd: Reg, rs1: Reg, imm: int, funct3: int, funct7: int): MicroOp {
    if funct3 == 0 then Addi(rd, rs1, imm)
    else if funct3 == 2 then Slti(rd, rs1, imm)
    else if funct3 == 3 then Sltiu(rd, rs1, imm)
    else if funct3 == 4 then Xori(rd, rs1, imm)
    else if funct3 == 6 then Ori(rd, rs1, imm)
    else if funct3 == 7 then Andi(rd, rs1, imm)
    else if funct3 == 1 then Slli(rd, rs1, imm % 0x40)
    else if funct3 == 5 then if funct7 / 0x20 % 2 == 1 then Srai(rd, rs1, imm % 0x40) else Srli(rd, rs1, imm % 0x40)
    else Fence
  }

  function TranscodeOp(rd: Reg, rs1: Reg, rs2: Reg, funct3: int, funct7: int): MicroOp {
    match (funct3, funct7)
    case (0, 0x00) => Add(rd, rs1, rs2)
    case (0, 0x20) => Sub(rd, rs1, rs2)
    case (0, 0x01) => Mul(rd, rs1, rs2)
    case (1, 0x00) => Sll(rd, rs1, rs2)
    case (1, 0x01) => Mulh(rd, rs1, rs2)
    case (2, 0x00) => Slt(rd, rs1, rs2)
    case (2, 0x01) => Mulhsu(rd, rs1, rs2)
    case (3, 0x00) => Sltu(rd, rs1, rs2)
    case (3, 0x01) => Mulhu(rd, rs1, rs2)
    case (4, 0x00) => Xor(rd, rs1, rs2)
    case (4, 0x01) => Div(rd, rs1, rs2)
    case (5, 0x00) => Srl(rd, rs1, rs2)
    case (5, 0x20) => Sra(rd, rs1, rs2)
    case (5, 0x01) => Divu(rd, rs1, rs2)
    case (6, 0x00) => Or(rd, rs1, rs2)
    case (6, 0x01) => Rem(rd, rs1, rs2)
    case (7, 0x00) => And(rd, rs1, rs2)
    case (7, 0x01) => Remu(rd, rs1, rs2)
    case _ => Fence
  }

  function TranscodeOpImm32(rd: Reg, rs1: Reg, imm: int, funct3: int, funct7: int): MicroOp {
    if funct3 == 0 then Addiw(rd, rs1, Bits.I32(imm))
    else if funct3 == 1 then Slliw(rd, rs1, imm % 0x20)
    else if funct3 == 5 then if funct7 / 0x20 % 2 == 1 then Sraiw(rd, rs1, imm % 0x20) else Srliw(rd, rs1, imm % 0x20)
    else Fence
  }

  function TranscodeOp32(rd: Reg, rs1: Reg, rs2: Reg, funct3: int, funct7: int): MicroOp {
    match (funct3, funct7)
    case (0, 0x00) => Addw(rd, rs1, rs2)
    case (0, 0x20) => Subw(rd, rs1, rs2)
    case (0, 0x01) => Mulw(rd, rs1, rs2)
    case (1, 0x00) => Sllw(rd, rs1, rs2)
    case (5, 0x00) => Srlw(rd, rs1, rs2)
    case (5, 0x20) => Sraw(rd, rs1, rs2)
    case (4, 0x01) => Divw(rd, rs1, rs2)
    case (5, 0x01) => Divuw(rd, rs1, rs2)
    case (6, 0x01) => Remw(rd, rs1, rs2)
    case (7, 0x01) => Remuw(rd, rs1, rs2)
    case _ => Fence
  }

  function TranscodeSystem(rd: Reg, rs1: Reg, funct3: int, imm: int, off: nat): MicroOp {
    match funct3
    case 0 =>
      if imm == 0x000 then Ecall(off)
      else if imm == 0x001 then Ebreak(off)
      else if imm == 0x302 then Mret(off)
      else if imm == 0x102 then Sret(off)
      else if imm == 0x105 then MicroOp.Wfi(off)
      else if imm / 0x20 % 0x80 == 0x09 then SfenceVma(off)
      else Fence
    case 1 => Csrrw(rd, rs1, imm % 0x1000, off)
    case 2 => Csrrs(rd, rs1, imm % 0x1000, off)
    case 3 => Csrrc(rd, rs1, imm % 0x1000, off)
    case 5 => Csrrwi(rd, rs1, imm % 0x1000, off)
    case 6 => Csrrsi(rd, rs1, imm % 0x1000, off)
    case 7 => Csrrci(rd, rs1, imm % 0x1000, off)
    case _ => Fence
  }

  function TranscodeAmo(rd: Reg, rs1: Reg, rs2: Reg, funct3: int, funct5: int, off: nat): MicroOp {
    var isWord := funct3 == 2;
    match funct5
    case 0x02 => if isWord then LrW(rd, rs1, off) else LrD(rd, rs1, off)
    case 0x03 => if isWord then ScW(rd, rs1, rs2, off) else ScD(rd, rs1, rs2, off)
    case 0x01 => AmoSwap(rd, rs1, rs2, isWord, off)
    case 0x00 => AmoAdd(rd, rs1, rs2, isWord, off)
    case 0x04 => AmoXor(rd, rs1, rs2, isWord, off)
    case 0x0C => AmoAnd(rd, rs1, rs2, isWord, off)
    case 0x08 => AmoOr(rd, rs1, rs2, isWord, off)
    case 0x10 => AmoMin(rd, rs1, rs2, isWord, off)
    case 0x14 => AmoMax(rd, rs1, rs2, isWord, off)
    case 0x18 => AmoMinu(rd, rs1, rs2, isWord, off)
    case 0x1C => AmoMaxu(rd, rs1, rs2, isWord, off)
    case _ => Fence
  }

  /** The micro-operation for the instruction at byte offset `off` of its block. */
  function Transcode(op: Decoder.Op, off: nat, len: nat): MicroOp {
    match op
    case Lui(rd, imm) => Lui(rd, imm)
    case Auipc(rd, imm) => Auipc(rd, imm, off)
    case Jal(rd, imm) => Jal(rd, imm, off, len)
    case Jalr(rd, rs1, imm) => Jalr(rd, rs1, imm, off, len)
    case Branch(rs1, rs2, imm, funct3) => TranscodeBranch(rs1, rs2, imm, funct3, off, len)
    case Load(rd, rs1, imm, funct3) => TranscodeLoad(rd, rs1, imm, funct3, off)
    case Store(rs1, rs2, imm, funct3) => TranscodeStore(rs1, rs2, imm, funct3, off)
    case OpImm(rd, rs1, imm, funct3, funct7) => TranscodeOpImm(rd, rs1, imm, funct3, funct7)
    case OpReg(rd, rs1, rs2, funct3, funct7) => TranscodeOp(rd, rs1, rs2, funct3, funct7)
    case OpImm32(rd, rs1, imm, funct3, funct7) => TranscodeOpImm32(rd, rs1, imm, funct3, funct7)
    case OpReg32(rd, rs1, rs2, funct3, funct7) => TranscodeOp32(rd, rs1, rs2, funct3, funct7)
    case System(rd, rs1, funct3, imm) => TranscodeSystem(rd, rs1, funct3, imm, off)
    case Amo(rd, rs1, rs2, funct3, funct5, _, _) => TranscodeAmo(rd, rs1, rs2, funct3, funct5, off)
    case Fence => Fence
  }
}
