/** RV64IMAC instruction decoding and the expansion of compressed instructions.  Bit fields are
    quotients and remainders by powers of two; a disjunction of disjoint fields is their sum. */
module Decoder {
  import opened Base

  type Reg = n: int | 0 <= n < 32
  type u16 = n: int | 0 <= n < 0x1_0000

  datatype Op =
    | Lui(rd: Reg, imm: int)
    | Auipc(rd: Reg, imm: int)
    | Jal(rd: Reg, imm: int)
    | Jalr(rd: Reg, rs1: Reg, imm: int)
    | Branch(rs1: Reg, rs2: Reg, imm: int, funct3: int)
    | Load(rd: Reg, rs1: Reg, imm: int, funct3: int)
    | Store(rs1: Reg, rs2: Reg, imm: int, funct3: int)
    | OpImm(rd: Reg, rs1: Reg, imm: int, funct3: int, funct7: int)
    | OpReg(rd: Reg, rs1: Reg, rs2: Reg, funct3: int, funct7: int)
    | OpImm32(rd: Reg, rs1: Reg, imm: int, funct3: int, funct7: int)
    | OpReg32(rd: Reg, rs1: Reg, rs2: Reg, funct3: int, funct7: int)
    | System(rd: Reg, rs1: Reg, funct3: int, imm: int)
    | Amo(rd: Reg, rs1: Reg, rs2: Reg, funct3: int, funct5: int, aq: bool, rl: bool)
    | Fence

  /** `v`, a field whose values run below `span`, read as two's complement. */
  function Signed(v: int, span: int): int {
    if v >= span / 2 then v - span else v
  }

  function ImmI(insn: u32): int {
    Signed(insn / 0x10_0000, 0x1000)
  }

  function ImmS(insn: u32): int {
    Signed(insn / 0x200_0000, 0x80) * 32 + insn / 0x80 % 0x20
  }

  /** imm[12|10:5|4:1|11] */
  function ImmB(insn: u32): int {
    Signed(insn / 0x8000_0000 * 0x1000 + insn / 0x80 % 2 * 0x800 + insn / 0x200_0000 % 0x40 * 0x20
           + insn / 0x100 % 0x10 * 2, 0x2000)
  }

  function ImmU(insn: u32): int {
    Signed(insn - insn % 0x1000, 0x1_0000_0000)
  }

  /** imm[20|10:1|11|19:12] */
  function ImmJ(insn: u32): int {
    Signed(insn / 0x8000_0000 * 0x10_0000 + insn / 0x1000 % 0x100 * 0x1000 + insn / 0x10_0000 % 2 * 0x800
           + insn / 0x20_0000 % 0x400 * 2, 0x20_0000)
  }

  function Decode(insn: u32): Result<Op> {
    var opcode := insn % 0x80;
    var rd: Reg := insn / 0x80 % 0x20;
    var funct3 := insn / 0x1000 % 8;
    var rs1: Reg := insn / 0x8000 % 0x20;
    var rs2: Reg := insn / 0x10_0000 % 0x20;
    var funct7 := insn / 0x200_0000;
    if opcode == 0x37 then Ok(Lui(rd, ImmU(insn)))
    else if opcode == 0x17 then Ok(Auipc(rd, ImmU(insn)))
    else if opcode == 0x6F then Ok(Jal(rd, ImmJ(insn)))
    else if opcode == 0x67 then Ok(Jalr(rd, rs1, ImmI(insn)))
    else if opcode == 0x63 then Ok(Branch(rs1, rs2, ImmB(insn), funct3))
    else if opcode == 0x03 then Ok(Load(rd, rs1, ImmI(insn), funct3))
    else if opcode == 0x23 then Ok(Store(rs1, rs2, ImmS(insn), funct3))
    else if opcode == 0x13 then Ok(OpImm(rd, rs1, ImmI(insn), funct3, funct7))
    else if opcode == 0x33 then Ok(OpReg(rd, rs1, rs2, funct3, funct7))
    else if opcode == 0x1B then Ok(OpImm32(rd, rs1, ImmI(insn), funct3, funct7))
    else if opcode == 0x3B then Ok(OpReg32(rd, rs1, rs2, funct3, funct7))
    else if opcode == 0x2F then
      Ok(Amo(rd, rs1, rs2, funct3, insn / 0x800_0000, insn / 0x400_0000 % 2 == 1, insn / 0x200_0000 % 2 == 1))
    else if opcode == 0x73 then Ok(System(rd, rs1, funct3, insn / 0x10_0000))
    else if opcode == 0x0F then Ok(Fence)
    else Err(IllegalInstruction(insn))
  }

  // ---- Canonical 32-bit encodings -----------------------------------------------------------------

  type Field3 = n: int | 0 <= n < 8
  type Field7 = n: int | 0 <= n < 128

  function EncodeI(imm: int, rs1: Reg, funct3: Field3, rd: Reg, opcode: Field7): u32 {
    imm % 0x1000 * 0x10_0000 + rs1 * 0x8000 + funct3 * 0x1000 + rd * 0x80 + opcode
  }

  function EncodeU(imm: int, rd: Reg, opcode: Field7): u32 {
    imm / 0x1000 % 0x10_0000 * 0x1000 + rd * 0x80 + opcode
  }

  function EncodeR(funct7: Field7, rs2: Reg, rs1: Reg, funct3: Field3, rd: Reg, opcode: Field7): u32 {
    funct7 * 0x200_0000 + rs2 * 0x10_0000 + rs1 * 0x8000 + funct3 * 0x1000 + rd * 0x80 + opcode
  }

  function EncodeS(imm: int, rs2: Reg, rs1: Reg, funct3: Field3, opcode: Field7): u32 {
    imm / 0x20 % 0x80 * 0x200_0000 + rs2 * 0x10_0000 + rs1 * 0x8000 + funct3 * 0x1000 + imm % 0x20 * 0x80 + opcode
  }

  function EncodeJ(imm: int, rd: Reg): u32 {
    imm / 0x10_0000 % 2 * 0x8000_0000 + imm / 0x1000 % 0x100 * 0x1000 + imm / 0x800 % 2 * 0x10_0000
    + imm / 2 % 0x400 * 0x20_0000 + rd * 0x80 + 0x6F
  }

  function EncodeB(imm: int, rs2: Reg, rs1: Reg, funct3: Field3, opcode: Field7): u32 {
    imm / 0x1000 % 2 * 0x8000_0000 + imm / 0x20 % 0x40 * 0x200_0000 + rs2 * 0x10_0000 + rs1 * 0x8000
    + funct3 * 0x1000 + imm / 2 % 0x10 * 0x100 + imm / 0x800 % 2 * 0x80 + opcode
  }

  // ---- Compressed instructions ---------------------------------------------------------------------

  function ExpandCompressed(c: u16): Result<u32> {
    var funct3 := c / 0x2000;
    if c % 4 == 0 then ExpandQ0(c, funct3)
    else if c % 4 == 1 then ExpandQ1(c, funct3)
    else if c % 4 == 2 then ExpandQ2(c, funct3)
    else Err(IllegalInstruction(c))
  }

  /** The three-bit register fields name x8 to x15. */
  function RdPrime(c: u16): Reg {
    8 + c / 4 % 8
  }

  function Rs1Prime(c: u16): Reg {
    8 + c / 0x80 % 8
  }

  function RdFull(c: u16): Reg {
    c / 0x80 % 0x20
  }

  function Rs2Full(c: u16): Reg {
    c / 4 % 0x20
  }

  /** Bits 6:2 below bit 12. */
  function Imm6(c: u16): int {
    c / 4 % 0x20 + c / 0x1000 % 2 * 0x20
  }

  function Addi4spnImm(c: u16): int {
    c / 0x40 % 2 * 4 + c / 0x20 % 2 * 8 + c / 0x800 % 4 * 0x10 + c / 0x80 % 0x10 * 0x40
  }

  function LwImm(c: u16): int {
    c / 0x40 % 2 * 4 + c / 0x400 % 8 * 8 + c / 0x20 % 2 * 0x40
  }

  function LdImm(c: u16): int {
    c / 0x400 % 8 * 8 + c / 0x20 % 4 * 0x40
  }

  function ExpandQ0(c: u16, funct3: int): Result<u32> {
    if funct3 == 0 then
      if Addi4spnImm(c) == 0 then Err(IllegalInstruction(c)) else Ok(EncodeI(Addi4spnImm(c), 2, 0, RdPrime(c), 0x13))
    else if funct3 == 2 then Ok(EncodeI(LwImm(c), Rs1Prime(c), 2, RdPrime(c), 0x03))
    else if funct3 == 3 then Ok(EncodeI(LdImm(c), Rs1Prime(c), 3, RdPrime(c), 0x03))
    else if funct3 == 6 then Ok(EncodeS(LwImm(c), RdPrime(c), Rs1Prime(c), 2, 0x23))
    else if funct3 == 7 then Ok(EncodeS(LdImm(c), RdPrime(c), Rs1Prime(c), 3, 0x23))
    else Err(IllegalInstruction(c))
  }

  function Addi16spImm(c: u16): int {
    c / 0x1000 % 2 * 0x200 + c / 8 % 4 * 0x80 + c / 0x20 % 2 * 0x40 + c / 4 % 2 * 0x20 + c / 0x40 % 2 * 0x10
  }

  /** imm[11|4|9:8|10|6|7|3:1|5] */
  function JImm(c: u16): int {
    c / 0x1000 % 2 * 0x800 + c / 0x800 % 2 * 0x10 + c / 0x200 % 4 * 0x100 + c / 0x100 % 2 * 0x400
    + c / 0x80 % 2 * 0x40 + c / 0x40 % 2 * 0x80 + c / 8 % 8 * 2 + c / 4 % 2 * 0x20
  }

  /** imm[8|4:3|7:6|2:1|5] */
  function BranchImm(c: u16): int {
    c / 0x1000 % 2 * 0x100 + c / 0x400 % 4 * 8 + c / 0x20 % 4 * 0x40 + c / 8 % 4 * 2 + c / 4 % 2 * 0x20
  }

  function ExpandQ1(c: u16, funct3: int): Result<u32> {
    var rd := RdFull(c);
    if funct3 == 0 then
      if rd == 0 then
        if Signed(Imm6(c), 0x40) == 0 then Ok(EncodeI(0, 0, 0, 0, 0x13)) else Err(IllegalInstruction(c))
      else Ok(EncodeI(Signed(Imm6(c), 0x40), rd, 0, rd, 0x13))
    else if funct3 == 1 then
      if rd == 0 then Err(IllegalInstruction(c)) else Ok(EncodeI(Signed(Imm6(c), 0x40), rd, 0, rd, 0x1B))
    else if funct3 == 2 then
      if rd == 0 then Err(IllegalInstruction(c)) else Ok(EncodeI(Signed(Imm6(c), 0x40), 0, 0, rd, 0x13))
    else if funct3 == 3 then
      if rd == 2 then
        if Addi16spImm(c) == 0 then Err(IllegalInstruction(c))
        else Ok(EncodeI(Signed(Addi16spImm(c), 0x400), 2, 0, 2, 0x13))
      else if rd == 0 || Imm6(c) == 0 then Err(IllegalInstruction(c))
      else Ok(EncodeU(Signed(Imm6(c), 0x40) * 0x1000, rd, 0x37))
    else if funct3 == 4 then ExpandAlu(c)
    else if funct3 == 5 then Ok(EncodeJ(Signed(JImm(c), 0x1000), 0))
    else if funct3 == 6 then Ok(EncodeB(Signed(BranchImm(c), 0x200), 0, Rs1Prime(c), 0, 0x63))
    else if funct3 == 7 then Ok(EncodeB(Signed(BranchImm(c), 0x200), 0, Rs1Prime(c), 1, 0x63))
    else Err(IllegalInstruction(c))
  }

  /** C.SRLI, C.SRAI, C.ANDI and the register-register group. */
  function ExpandAlu(c: u16): Result<u32> {
    var rs1, rs2 := Rs1Prime(c), RdPrime(c);
    var op := c / 0x400 % 4;
    var funct2 := c / 0x20 % 4;
    if op == 0 then Ok(EncodeI(Imm6(c), rs1, 5, rs1, 0x13))
    else if op == 1 then Ok(EncodeI(0x800 + Imm6(c), rs1, 5, rs1, 0x13))
    else if op == 2 then Ok(EncodeI(Signed(Imm6(c), 0x40), rs1, 7, rs1, 0x13))
    else if c / 0x1000 % 2 == 0 then
      if funct2 == 0 then Ok(EncodeR(0x20, rs2, rs1, 0, rs1, 0x33))
      else if funct2 == 1 then Ok(EncodeR(0, rs2, rs1, 4, rs1, 0x33))
      else if funct2 == 2 then Ok(EncodeR(0, rs2, rs1, 6, rs1, 0x33))
      else Ok(EncodeR(0, rs2, rs1, 7, rs1, 0x33))
    else if funct2 == 0 then Ok(EncodeR(0x20, rs2, rs1, 0, rs1, 0x3B))
    else if funct2 == 1 then Ok(EncodeR(0, rs2, rs1, 0, rs1, 0x3B))
    else Err(IllegalInstruction(c))
  }

  function LwspImm(c: u16): int {
    c / 0x10 % 8 * 4 + c / 0x1000 % 2 * 0x20 + c / 4 % 4 * 0x40
  }

  function LdspImm(c: u16): int {
    c / 0x1000 % 2 * 0x20 + c / 0x20 % 4 * 8 + c / 4 % 8 * 0x40
  }

  function SwspImm(c: u16): int {
    c / 0x200 % 0x10 * 4 + c / 0x80 % 4 * 0x40
  }

  function SdspImm(c: u16): int {
    c / 0x400 % 8 * 8 + c / 0x80 % 8 * 0x40
  }

  function ExpandQ2(c: u16, funct3: int): Result<u32> {
    var rd, rs2 := RdFull(c), Rs2Full(c);
    if funct3 == 0 then
      if rd == 0 then Err(IllegalInstruction(c)) else Ok(EncodeI(Imm6(c), rd, 1, rd, 0x13))
    else if funct3 == 2 then
      if rd == 0 then Err(IllegalInstruction(c)) else Ok(EncodeI(LwspImm(c), 2, 2, rd, 0x03))
    else if funct3 == 3 then
      if rd == 0 then Err(IllegalInstruction(c)) else Ok(EncodeI(LdspImm(c), 2, 3, rd, 0x03))
    else if funct3 == 4 then
      if c / 0x1000 % 2 == 0 then
        if rd == 0 then Err(IllegalInstruction(c))
        else if rs2 == 0 then Ok(EncodeI(0, rd, 0, 0, 0x67))
        else Ok(EncodeR(0, rs2, 0, 0, rd, 0x33))
      else if rd == 0 then
        if rs2 == 0 then Ok(0x0010_0073) else Err(IllegalInstruction(c))
      else if rs2 == 0 then Ok(EncodeI(0, rd, 0, 1, 0x67))
      else Ok(EncodeR(0, rs2, rd, 0, rd, 0x33))
    else if funct3 == 6 then Ok(EncodeS(SwspImm(c), rs2, 2, 2, 0x23))
    else if funct3 == 7 then Ok(EncodeS(SdspImm(c), rs2, 2, 3, 0x23))
    else Err(IllegalInstruction(c))
  }

  /** Jump and branch offsets are even, so targets of even addresses are even. */
  lemma OffsetsEven(insn: u32)
    ensures Decode(insn).Ok? && (Decode(insn).value.Jal? || Decode(insn).value.Branch?)
            ==> Decode(insn).value.imm % 2 == 0
  {
    SignedEven(insn / 0x8000_0000 * 0x800 + insn / 0x80 % 2 * 0x400 + insn / 0x200_0000 % 0x40 * 0x10
               + insn / 0x100 % 0x10, 0x1000);
    SignedEven(insn / 0x8000_0000 * 0x8_0000 + insn / 0x1000 % 0x100 * 0x800 + insn / 0x10_0000 % 2 * 0x400
               + insn / 0x20_0000 % 0x400, 0x10_0000);
    hide Signed, ImmI, ImmS, ImmU;
  }

  lemma SignedEven(v: int, span: int)
    requires span % 2 == 0
    ensures Signed(2 * v, 2 * span) % 2 == 0
  {
  }
}
