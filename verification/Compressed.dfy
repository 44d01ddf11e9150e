/** Compressed instructions against chapter 16 of the RISC-V Unprivileged ISA 20191213: what every 16-bit
    encoding means, read off the instruction formats bit by bit, and where the expansion departs from it. */
module Compressed {
  import opened Base
  import B = Bits
  import opened BitLaws
  import opened Decoder
  import I = Interpreter

  /** The meaning of a 16-bit encoding as a base instruction; an encoding reserved for hints that the
      emulator rejects; or one that is reserved or needs an extension the hart does not have. */
  datatype Rvc = Means(op: Op) | Hint | Reserved

  // ---- Instruction formats ----------------------------------------------------------------------------------

  function InstBit(c: u16, k: nat): nat {
    if B.Bit(c, k) then 1 else 0
  }

  /** Instruction bit `from` as bit `to` of an immediate. */
  function Place(c: u16, from: nat, to: nat): nat {
    InstBit(c, from) * B.Pow2(to)
  }

  /** Bits 12 and 6:2 as a six-bit number: CI immediates and shift amounts. */
  function CiImm(c: u16): nat {
    Place(c, 12, 5) + Place(c, 6, 4) + Place(c, 5, 3) + Place(c, 4, 2) + Place(c, 3, 1) + Place(c, 2, 0)
  }

  /** nzuimm[5:4|9:6|2|3] */
  function CiwImm(c: u16): nat {
    Place(c, 12, 5) + Place(c, 11, 4) + Place(c, 10, 9) + Place(c, 9, 8) + Place(c, 8, 7)
    + Place(c, 7, 6) + Place(c, 6, 2) + Place(c, 5, 3)
  }

  /** uimm[5:3] and uimm[2|6] */
  function ClwImm(c: u16): nat {
    Place(c, 12, 5) + Place(c, 11, 4) + Place(c, 10, 3) + Place(c, 6, 2) + Place(c, 5, 6)
  }

  /** uimm[5:3] and uimm[7:6] */
  function CldImm(c: u16): nat {
    Place(c, 12, 5) + Place(c, 11, 4) + Place(c, 10, 3) + Place(c, 6, 7) + Place(c, 5, 6)
  }

  /** nzimm[9] and nzimm[4|6|8:7|5] */
  function C16spImm(c: u16): nat {
    Place(c, 12, 9) + Place(c, 6, 4) + Place(c, 5, 6) + Place(c, 4, 8) + Place(c, 3, 7) + Place(c, 2, 5)
  }

  /** offset[11|4|9:8|10|6|7|3:1|5] */
  function CjImm(c: u16): nat {
    Place(c, 12, 11) + Place(c, 11, 4) + Place(c, 10, 9) + Place(c, 9, 8) + Place(c, 8, 10)
    + Place(c, 7, 6) + Place(c, 6, 7) + Place(c, 5, 3) + Place(c, 4, 2) + Place(c, 3, 1)
    + Place(c, 2, 5)
  }

  /** offset[8|4:3] and offset[7:6|2:1|5] */
  function CbImm(c: u16): nat {
    Place(c, 12, 8) + Place(c, 11, 4) + Place(c, 10, 3) + Place(c, 6, 7) + Place(c, 5, 6)
    + Place(c, 4, 2) + Place(c, 3, 1) + Place(c, 2, 5)
  }

  /** uimm[5] and uimm[4:2|7:6] */
  function ClwspImm(c: u16): nat {
    Place(c, 12, 5) + Place(c, 6, 4) + Place(c, 5, 3) + Place(c, 4, 2) + Place(c, 3, 7) + Place(c, 2, 6)
  }

  /** uimm[5] and uimm[4:3|8:6] */
  function CldspImm(c: u16): nat {
    Place(c, 12, 5) + Place(c, 6, 4) + Place(c, 5, 3) + Place(c, 4, 8) + Place(c, 3, 7) + Place(c, 2, 6)
  }

  /** uimm[5:2|7:6] */
  function CswspImm(c: u16): nat {
    Place(c, 12, 5) + Place(c, 11, 4) + Place(c, 10, 3) + Place(c, 9, 2) + Place(c, 8, 7)
    + Place(c, 7, 6)
  }

  /** uimm[5:3|8:6] */
  function CsdspImm(c: u16): nat {
    Place(c, 12, 5) + Place(c, 11, 4) + Place(c, 10, 3) + Place(c, 9, 8) + Place(c, 8, 7)
    + Place(c, 7, 6)
  }

  // ---- The immediates agree -------------------------------------------------------------------------------------

  /** The bits of a field, one by one. */
  lemma FieldBits(c: u16)
    ensures InstBit(c, 2) == c / 4 % 2 && InstBit(c, 3) == c / 8 % 2 && InstBit(c, 4) == c / 0x10 % 2
    ensures InstBit(c, 5) == c / 0x20 % 2 && InstBit(c, 6) == c / 0x40 % 2 && InstBit(c, 7) == c / 0x80 % 2
    ensures InstBit(c, 8) == c / 0x100 % 2 && InstBit(c, 9) == c / 0x200 % 2 && InstBit(c, 10) == c / 0x400 % 2
    ensures InstBit(c, 11) == c / 0x800 % 2 && InstBit(c, 12) == c / 0x1000 % 2
  {
    BitAt(c, 2);
    BitAt(c, 3);
    BitAt(c, 4);
    BitAt(c, 5);
    BitAt(c, 6);
    BitAt(c, 7);
    BitAt(c, 8);
    BitAt(c, 9);
    BitAt(c, 10);
    BitAt(c, 11);
    BitAt(c, 12);
    SmallPowers();
    hide B.Bit, B.Pow2;
  }

  lemma PlaceValue(c: u16, from: nat, to: nat, unit: nat)
    requires B.Pow2(to) == unit
    ensures Place(c, from, to) == InstBit(c, from) * unit
  {
  }

  /** Fields of two to four bits are the sums of their bits. */
  lemma BitSums(x: nat)
    ensures x % 4 == x % 2 + 2 * (x / 2 % 2)
    ensures x % 8 == x % 2 + 2 * (x / 2 % 2) + 4 * (x / 4 % 2)
    ensures x % 0x10 == x % 2 + 2 * (x / 2 % 2) + 4 * (x / 4 % 2) + 8 * (x / 8 % 2)
  {
    var a := x / 2;
    var b := a / 2;
    var d := b / 2;
    assert b == x / 4 && d == x / 8;
    assert x == 2 * a + x % 2 && a == 2 * b + a % 2 && b == 2 * d + b % 2;
  }

  lemma LowBit(x: nat)
    ensures x % 0x20 == x % 2 + 2 * (x / 2 % 0x10)
  {
    var a := x / 2;
    assert x == 2 * a + x % 2 && a == 0x10 * (a / 0x10) + a % 0x10;
    Quotient(x, 0x20, a / 0x10, 2 * (a % 0x10) + x % 2);
  }

  lemma Halves(x: nat)
    ensures x / 2 / 2 == x / 4 && x / 2 / 4 == x / 8 && x / 2 / 8 == x / 0x10
  {
    HalveThenDivide(x, 2);
    HalveThenDivide(x, 4);
    HalveThenDivide(x, 8);
  }

  lemma FiveBits(x: nat)
    ensures x % 0x20 == x % 2 + 2 * (x / 2 % 2) + 4 * (x / 4 % 2) + 8 * (x / 8 % 2) + 0x10 * (x / 0x10 % 2)
  {
    LowBit(x);
    BitSums(x / 2);
    Halves(x);
  }

  lemma CiAgrees(c: u16)
    ensures CiImm(c) == Imm6(c)
  {
    hide Place, InstBit, B.Pow2;
    FieldBits(c);
    SmallPowers();
    PlaceValue(c, 12, 5, 0x20);
    PlaceValue(c, 6, 4, 0x10);
    PlaceValue(c, 5, 3, 8);
    PlaceValue(c, 4, 2, 4);
    PlaceValue(c, 3, 1, 2);
    PlaceValue(c, 2, 0, 1);
    FiveBits(c / 4);
    assert c / 4 / 2 == c / 8 && c / 4 / 4 == c / 0x10 && c / 4 / 8 == c / 0x20 && c / 4 / 0x10 == c / 0x40;
  }

  lemma CiwAgrees(c: u16)
    ensures CiwImm(c) == Addi4spnImm(c)
  {
    hide Place, InstBit, B.Pow2;
    FieldBits(c);
    SmallPowers();
    PlaceValue(c, 12, 5, 0x20);
    PlaceValue(c, 11, 4, 0x10);
    PlaceValue(c, 10, 9, 0x200);
    PlaceValue(c, 9, 8, 0x100);
    PlaceValue(c, 8, 7, 0x80);
    PlaceValue(c, 7, 6, 0x40);
    PlaceValue(c, 6, 2, 4);
    PlaceValue(c, 5, 3, 8);
    BitSums(c / 0x800);
    assert c / 0x800 / 2 == c / 0x1000;
    BitSums(c / 0x80);
    assert c / 0x80 / 2 == c / 0x100 && c / 0x80 / 4 == c / 0x200 && c / 0x80 / 8 == c / 0x400;
  }

  lemma ClwAgrees(c: u16)
    ensures ClwImm(c) == LwImm(c)
  {
    hide Place, InstBit, B.Pow2;
    FieldBits(c);
    SmallPowers();
    PlaceValue(c, 12, 5, 0x20);
    PlaceValue(c, 11, 4, 0x10);
    PlaceValue(c, 10, 3, 8);
    PlaceValue(c, 6, 2, 4);
    PlaceValue(c, 5, 6, 0x40);
    BitSums(c / 0x400);
    assert c / 0x400 / 2 == c / 0x800 && c / 0x400 / 4 == c / 0x1000;
  }

  lemma CldAgrees(c: u16)
    ensures CldImm(c) == LdImm(c)
  {
    hide Place, InstBit, B.Pow2;
    FieldBits(c);
    SmallPowers();
    PlaceValue(c, 12, 5, 0x20);
    PlaceValue(c, 11, 4, 0x10);
    PlaceValue(c, 10, 3, 8);
    PlaceValue(c, 6, 7, 0x80);
    PlaceValue(c, 5, 6, 0x40);
    BitSums(c / 0x400);
    assert c / 0x400 / 2 == c / 0x800 && c / 0x400 / 4 == c / 0x1000;
    BitSums(c / 0x20);
    assert c / 0x20 / 2 == c / 0x40;
  }

  lemma C16spAgrees(c: u16)
    ensures C16spImm(c) == Addi16spImm(c)
  {
    hide Place, InstBit, B.Pow2;
    FieldBits(c);
    SmallPowers();
    PlaceValue(c, 12, 9, 0x200);
    PlaceValue(c, 6, 4, 0x10);
    PlaceValue(c, 5, 6, 0x40);
    PlaceValue(c, 4, 8, 0x100);
    PlaceValue(c, 3, 7, 0x80);
    PlaceValue(c, 2, 5, 0x20);
    BitSums(c / 8);
    assert c / 8 / 2 == c / 0x10;
  }

  lemma CjAgrees(c: u16)
    ensures CjImm(c) == JImm(c)
  {
    hide Place, InstBit, B.Pow2;
    FieldBits(c);
    SmallPowers();
    PlaceValue(c, 12, 11, 0x800);
    PlaceValue(c, 11, 4, 0x10);
    PlaceValue(c, 10, 9, 0x200);
    PlaceValue(c, 9, 8, 0x100);
    PlaceValue(c, 8, 10, 0x400);
    PlaceValue(c, 7, 6, 0x40);
    PlaceValue(c, 6, 7, 0x80);
    PlaceValue(c, 5, 3, 8);
    PlaceValue(c, 4, 2, 4);
    PlaceValue(c, 3, 1, 2);
    PlaceValue(c, 2, 5, 0x20);
    BitSums(c / 0x200);
    assert c / 0x200 / 2 == c / 0x400;
    BitSums(c / 8);
    assert c / 8 / 2 == c / 0x10 && c / 8 / 4 == c / 0x20;
  }

  lemma CbAgrees(c: u16)
    ensures CbImm(c) == BranchImm(c)
  {
    hide Place, InstBit, B.Pow2;
    FieldBits(c);
    SmallPowers();
    PlaceValue(c, 12, 8, 0x100);
    PlaceValue(c, 11, 4, 0x10);
    PlaceValue(c, 10, 3, 8);
    PlaceValue(c, 6, 7, 0x80);
    PlaceValue(c, 5, 6, 0x40);
    PlaceValue(c, 4, 2, 4);
    PlaceValue(c, 3, 1, 2);
    PlaceValue(c, 2, 5, 0x20);
    BitSums(c / 0x400);
    assert c / 0x400 / 2 == c / 0x800;
    BitSums(c / 0x20);
    assert c / 0x20 / 2 == c / 0x40;
    BitSums(c / 8);
    assert c / 8 / 2 == c / 0x10;
  }

  lemma ClwspAgrees(c: u16)
    ensures ClwspImm(c) == LwspImm(c)
  {
    hide Place, InstBit, B.Pow2;
    FieldBits(c);
    SmallPowers();
    PlaceValue(c, 12, 5, 0x20);
    PlaceValue(c, 6, 4, 0x10);
    PlaceValue(c, 5, 3, 8);
    PlaceValue(c, 4, 2, 4);
    PlaceValue(c, 3, 7, 0x80);
    PlaceValue(c, 2, 6, 0x40);
    BitSums(c / 0x10);
    assert c / 0x10 / 2 == c / 0x20 && c / 0x10 / 4 == c / 0x40;
    BitSums(c / 4);
    assert c / 4 / 2 == c / 8;
  }

  lemma CldspAgrees(c: u16)
    ensures CldspImm(c) == LdspImm(c)
  {
    hide Place, InstBit, B.Pow2;
    FieldBits(c);
    SmallPowers();
    PlaceValue(c, 12, 5, 0x20);
    PlaceValue(c, 6, 4, 0x10);
    PlaceValue(c, 5, 3, 8);
    PlaceValue(c, 4, 8, 0x100);
    PlaceValue(c, 3, 7, 0x80);
    PlaceValue(c, 2, 6, 0x40);
    BitSums(c / 0x20);
    assert c / 0x20 / 2 == c / 0x40;
    BitSums(c / 4);
    assert c / 4 / 2 == c / 8 && c / 4 / 4 == c / 0x10;
  }

  lemma CswspAgrees(c: u16)
    ensures CswspImm(c) == SwspImm(c)
  {
    hide Place, InstBit, B.Pow2;
    FieldBits(c);
    SmallPowers();
    PlaceValue(c, 12, 5, 0x20);
    PlaceValue(c, 11, 4, 0x10);
    PlaceValue(c, 10, 3, 8);
    PlaceValue(c, 9, 2, 4);
    PlaceValue(c, 8, 7, 0x80);
    PlaceValue(c, 7, 6, 0x40);
    BitSums(c / 0x200);
    assert c / 0x200 / 2 == c / 0x400 && c / 0x200 / 4 == c / 0x800 && c / 0x200 / 8 == c / 0x1000;
    BitSums(c / 0x80);
    assert c / 0x80 / 2 == c / 0x100;
  }

  lemma CsdspAgrees(c: u16)
    ensures CsdspImm(c) == SdspImm(c)
  {
    hide Place, InstBit, B.Pow2;
    FieldBits(c);
    SmallPowers();
    PlaceValue(c, 12, 5, 0x20);
    PlaceValue(c, 11, 4, 0x10);
    PlaceValue(c, 10, 3, 8);
    PlaceValue(c, 9, 8, 0x100);
    PlaceValue(c, 8, 7, 0x80);
    PlaceValue(c, 7, 6, 0x40);
    BitSums(c / 0x400);
    assert c / 0x400 / 2 == c / 0x800 && c / 0x400 / 4 == c / 0x1000;
    BitSums(c / 0x80);
    assert c / 0x80 / 2 == c / 0x100 && c / 0x80 / 4 == c / 0x200;
  }

  // ---- Meaning ----------------------------------------------------------------------------------------------------

  /** An OP-IMM instruction; its funct7 field is the upper part of the immediate. */
  function Imm(rd: Reg, rs1: Reg, imm: int, funct3: int): Op {
    OpImm(rd, rs1, imm, funct3, imm % 0x1000 / 0x20)
  }

  function MeaningQ0(c: u16): Rvc {
    var funct3 := c / 0x2000;
    if funct3 == 0 then if CiwImm(c) == 0 then Reserved else Means(Imm(RdPrime(c), 2, CiwImm(c), 0))
    else if funct3 == 2 then Means(Load(RdPrime(c), Rs1Prime(c), ClwImm(c), 2))
    else if funct3 == 3 then Means(Load(RdPrime(c), Rs1Prime(c), CldImm(c), 3))
    else if funct3 == 6 then Means(Store(Rs1Prime(c), RdPrime(c), ClwImm(c), 2))
    else if funct3 == 7 then Means(Store(Rs1Prime(c), RdPrime(c), CldImm(c), 3))
    else Reserved
  }

  function MeaningQ1(c: u16): Rvc {
    var funct3, rd, imm := c / 0x2000, RdFull(c), Signed(CiImm(c), 0x40);
    if funct3 == 0 then if rd == 0 && imm != 0 then Hint else Means(Imm(rd, rd, imm, 0))
    else if funct3 == 1 then
      if rd == 0 then Reserved else Means(OpImm32(rd, rd, imm, 0, imm % 0x1000 / 0x20))
    else if funct3 == 2 then if rd == 0 then Hint else Means(Imm(rd, 0, imm, 0))
    else if funct3 == 3 then
      if rd == 2 then if C16spImm(c) == 0 then Reserved else Means(Imm(2, 2, Signed(C16spImm(c), 0x400), 0))
      else if imm == 0 then Reserved
      else if rd == 0 then Hint
      else Means(Lui(rd, imm * 0x1000))
    else if funct3 == 4 then MeaningAlu(c)
    else if funct3 == 5 then Means(Jal(0, Signed(CjImm(c), 0x1000)))
    else if funct3 == 6 then Means(Branch(Rs1Prime(c), 0, Signed(CbImm(c), 0x200), 0))
    else Means(Branch(Rs1Prime(c), 0, Signed(CbImm(c), 0x200), 1))
  }

  function MeaningAlu(c: u16): Rvc {
    var rd, rs2 := Rs1Prime(c), RdPrime(c);
    var op, funct2 := c / 0x400 % 4, c / 0x20 % 4;
    if op == 0 then Means(Imm(rd, rd, CiImm(c), 5))
    else if op == 1 then Means(Imm(rd, rd, 0x400 + CiImm(c), 5))
    else if op == 2 then Means(Imm(rd, rd, Signed(CiImm(c), 0x40), 7))
    else if InstBit(c, 12) == 0 then
      if funct2 == 0 then Means(OpReg(rd, rd, rs2, 0, 0x20))
      else if funct2 == 1 then Means(OpReg(rd, rd, rs2, 4, 0))
      else if funct2 == 2 then Means(OpReg(rd, rd, rs2, 6, 0))
      else Means(OpReg(rd, rd, rs2, 7, 0))
    else if funct2 == 0 then Means(OpReg32(rd, rd, rs2, 0, 0x20))
    else if funct2 == 1 then Means(OpReg32(rd, rd, rs2, 0, 0))
    else Reserved
  }

  function MeaningQ2(c: u16): Rvc {
    var funct3, rd, rs2 := c / 0x2000, RdFull(c), Rs2Full(c);
    if funct3 == 0 then if rd == 0 then Hint else Means(Imm(rd, rd, CiImm(c), 1))
    else if funct3 == 2 then if rd == 0 then Reserved else Means(Load(rd, 2, ClwspImm(c), 2))
    else if funct3 == 3 then if rd == 0 then Reserved else Means(Load(rd, 2, CldspImm(c), 3))
    else if funct3 == 4 then
      if InstBit(c, 12) == 0 then
        if rs2 == 0 then if rd == 0 then Reserved else Means(Jalr(0, rd, 0))
        else if rd == 0 then Hint
        else Means(OpReg(rd, 0, rs2, 0, 0))
      else if rs2 == 0 then if rd == 0 then Means(System(0, 0, 0, 1)) else Means(Jalr(1, rd, 0))
      else if rd == 0 then Hint
      else Means(OpReg(rd, rd, rs2, 0, 0))
    else if funct3 == 6 then Means(Store(2, rs2, CswspImm(c), 2))
    else if funct3 == 7 then Means(Store(2, rs2, CsdspImm(c), 3))
    else Reserved
  }

  /** The meaning of a 16-bit encoding on RV64IMAC. */
  function Meaning(c: u16): Rvc {
    if c % 4 == 0 then MeaningQ0(c) else if c % 4 == 1 then MeaningQ1(c) else if c % 4 == 2 then MeaningQ2(c)
        else Reserved
  }

  predicate IsCSrai(c: u16) {
    c % 4 == 1 && c / 0x2000 == 4 && c / 0x400 % 4 == 1
  }

  // ---- Encoding and decoding ----------------------------------------------------------------------------------------

  /** The fields of a word put together from top (12 bits), rs1, funct3, rd and opcode. */
  lemma Fields(insn: u32, top: nat, rs1: Reg, funct3: Field3, rd: Reg, opcode: Field7)
    requires top < 0x1000 && insn == top * 0x10_0000 + rs1 * 0x8000 + funct3 * 0x1000 + rd * 0x80 + opcode
    ensures insn % 0x80 == opcode && insn / 0x80 % 0x20 == rd && insn / 0x1000 % 8 == funct3
            && insn / 0x8000 % 0x20 == rs1
    ensures insn / 0x10_0000 == top && insn / 0x200_0000 == top / 0x20 && insn / 0x10_0000 % 0x20 == top % 0x20
    ensures insn / 0x8000_0000 == top / 0x800
  {
    var low: nat := rs1 * 0x8000 + funct3 * 0x1000 + rd * 0x80 + opcode;
    Quotient(insn, 0x10_0000, top, low);
    Quotient(insn, 0x8000, top * 0x20 + rs1, funct3 * 0x1000 + rd * 0x80 + opcode);
    Quotient(insn, 0x1000, (top * 0x20 + rs1) * 8 + funct3, rd * 0x80 + opcode);
    Quotient(insn, 0x80, ((top * 0x20 + rs1) * 8 + funct3) * 0x20 + rd, opcode);
    Quotient(insn, 0x200_0000, top / 0x20, top % 0x20 * 0x10_0000 + low);
    Quotient(insn, 0x8000_0000, top / 0x800, top % 0x800 * 0x10_0000 + low);
    Quotient(top * 0x20 + rs1, 0x20, top, rs1);
    Quotient((top * 0x20 + rs1) * 8 + funct3, 8, top * 0x20 + rs1, funct3);
    Quotient(((top * 0x20 + rs1) * 8 + funct3) * 0x20 + rd, 0x20, (top * 0x20 + rs1) * 8 + funct3, rd);
  }

  /** A sign-extended field, masked to its width and sign-extended again. */
  lemma SignedAgain(imm: int, span: nat)
    requires span > 0 && span % 2 == 0 && 0 <= imm + span / 2 && imm < span / 2
    ensures Signed(imm % span, span) == imm
  {
    if imm < 0 {
      Quotient(imm, span, -1, imm + span);
    } else {
      Quotient(imm, span, 0, imm);
    }
  }

  lemma DecodesI(imm: int, rs1: Reg, funct3: Field3, rd: Reg, opcode: Field7)
    requires -0x800 <= imm < 0x800
    ensures var insn := EncodeI(imm, rs1, funct3, rd, opcode);
            && (opcode == 0x13 ==> Decode(insn) == Ok(OpImm(rd, rs1, imm, funct3, imm % 0x1000 / 0x20)))
            && (opcode == 0x1B ==> Decode(insn) == Ok(OpImm32(rd, rs1, imm, funct3, imm % 0x1000 / 0x20)))
            && (opcode == 0x03 ==> Decode(insn) == Ok(Load(rd, rs1, imm, funct3)))
            && (opcode == 0x67 ==> Decode(insn) == Ok(Jalr(rd, rs1, imm)))
  {
    hide ImmS, ImmB, ImmU, ImmJ, Signed;
    SignedAgain(imm, 0x1000);
    Fields(EncodeI(imm, rs1, funct3, rd, opcode), imm % 0x1000, rs1, funct3, rd, opcode);
  }

  lemma DecodesR(funct7: Field7, rs2: Reg, rs1: Reg, funct3: Field3, rd: Reg, opcode: Field7)
    ensures var insn := EncodeR(funct7, rs2, rs1, funct3, rd, opcode);
            && (opcode == 0x33 ==> Decode(insn) == Ok(OpReg(rd, rs1, rs2, funct3, funct7)))
            && (opcode == 0x3B ==> Decode(insn) == Ok(OpReg32(rd, rs1, rs2, funct3, funct7)))
  {
    hide ImmI, ImmS, ImmB, ImmU, ImmJ;
    Fields(EncodeR(funct7, rs2, rs1, funct3, rd, opcode), funct7 * 0x20 + rs2, rs1, funct3, rd, opcode);
  }

  lemma DecodesS(imm: int, rs2: Reg, rs1: Reg, funct3: Field3)
    requires -0x800 <= imm < 0x800
    ensures Decode(EncodeS(imm, rs2, rs1, funct3, 0x23)) == Ok(Store(rs1, rs2, imm, funct3))
  {
    hide ImmI, ImmB, ImmU, ImmJ, Signed;
    var insn := EncodeS(imm, rs2, rs1, funct3, 0x23);
    Fields(insn, imm / 0x20 % 0x80 * 0x20 + rs2, rs1, funct3, imm % 0x20, 0x23);
    SignedAgain(imm / 0x20, 0x80);
    assert imm == imm / 0x20 * 0x20 + imm % 0x20;
  }

  /** The branch immediate, scattered and gathered. */
  lemma DecodesB(imm: int, rs2: Reg, rs1: Reg, funct3: Field3)
    requires -0x1000 <= imm < 0x1000 && imm % 2 == 0
    ensures Decode(EncodeB(imm, rs2, rs1, funct3, 0x63)) == Ok(Branch(rs1, rs2, imm, funct3))
  {
    hide ImmI, ImmS, ImmU, ImmJ, Signed;
    var insn := EncodeB(imm, rs2, rs1, funct3, 0x63);
    var b12, b11, hi, lo := imm / 0x1000 % 2, imm / 0x800 % 2, imm / 0x20 % 0x40, imm / 2 % 0x10;
    BranchFields(insn, b12, b11, hi, lo, rs2, rs1, funct3);
    SplitB(imm);
    SignedAgain(imm, 0x2000);
  }

  lemma BranchFields(insn: u32, b12: nat, b11: nat, hi: nat, lo: nat, rs2: Reg, rs1: Reg, funct3: Field3)
    requires b12 < 2 && b11 < 2 && hi < 0x40 && lo < 0x10
    requires insn == b12 * 0x8000_0000 + hi * 0x200_0000 + rs2 * 0x10_0000 + rs1 * 0x8000 + funct3 * 0x1000 + lo * 0x100
             + b11 * 0x80 + 0x63
    ensures insn % 0x80 == 0x63 && insn / 0x1000 % 8 == funct3 && insn / 0x8000 % 0x20 == rs1
            && insn / 0x10_0000 % 0x20 == rs2
    ensures insn / 0x8000_0000 == b12 && insn / 0x80 % 2 == b11 && insn / 0x200_0000 % 0x40 == hi
            && insn / 0x100 % 0x10 == lo
  {
    Fields(insn, (b12 * 0x40 + hi) * 0x20 + rs2, rs1, funct3, lo * 2 + b11, 0x63);
    var rest := (((b12 * 0x40 + hi) * 0x20 + rs2) * 0x20 + rs1) * 8 + funct3;
    Quotient(insn, 0x80, (rest * 0x10 + lo) * 2 + b11, 0x63);
    Quotient((rest * 0x10 + lo) * 2 + b11, 2, rest * 0x10 + lo, b11);
    Quotient(insn, 0x100, rest * 0x10 + lo, b11 * 0x80 + 0x63);
    Quotient(rest * 0x10 + lo, 0x10, rest, lo);
    Quotient((b12 * 0x40 + hi) * 0x20 + rs2, 0x20, b12 * 0x40 + hi, rs2);
    Quotient(b12 * 0x40 + hi, 0x40, b12, hi);
    Quotient((b12 * 0x40 + hi) * 0x20 + rs2, 0x800, b12, hi * 0x20 + rs2);
  }

  lemma SplitB(imm: int)
    requires imm % 2 == 0
    ensures imm % 0x2000 == imm / 0x1000 % 2 * 0x1000 + imm / 0x800 % 2 * 0x800 + imm / 0x20 % 0x40 * 0x20
            + imm / 2 % 0x10 * 2
  {
    var a1 := imm / 2;
    var a5 := a1 / 0x10;
    var a11 := a5 / 0x40;
    var a12 := a11 / 2;
    Nested(imm, 2, 0x10);
    Nested(imm, 0x20, 0x40);
    Nested(imm, 0x800, 2);
    Quotient(imm, 0x2000, a12 / 2, a12 % 2 * 0x1000 + a11 % 2 * 0x800 + a5 % 0x40 * 0x20 + a1 % 0x10 * 2);
  }

  lemma DecodesU(hi: int, rd: Reg)
    requires -0x20 <= hi < 0x20
    ensures Decode(EncodeU(hi * 0x1000, rd, 0x37)) == Ok(Lui(rd, hi * 0x1000))
  {
    hide ImmI, ImmS, ImmB, ImmJ;
    var top := hi % 0x10_0000;
    var insn := EncodeU(hi * 0x1000, rd, 0x37);
    Quotient(hi * 0x1000, 0x1000, hi, 0);
    if hi < 0 {
      Quotient(hi, 0x10_0000, -1, hi + 0x10_0000);
    } else {
      Quotient(hi, 0x10_0000, 0, hi);
    }
    assert insn == top * 0x1000 + rd * 0x80 + 0x37;
    Quotient(insn, 0x1000, top, rd * 0x80 + 0x37);
    Quotient(insn, 0x80, top * 0x20 + rd, 0x37);
    Quotient(top * 0x20 + rd, 0x20, top, rd);
  }

  /** The jump immediate, scattered and gathered. */
  lemma DecodesJ(imm: int, rd: Reg)
    requires -0x800 <= imm < 0x800 && imm % 2 == 0
    ensures Decode(EncodeJ(imm, rd)) == Ok(Jal(rd, imm))
  {
    hide ImmI, ImmS, ImmB, ImmU, Signed;
    var insn := EncodeJ(imm, rd);
    var b20, mid, b11, lo := imm / 0x10_0000 % 2, imm / 0x1000 % 0x100, imm / 0x800 % 2, imm / 2 % 0x400;
    JumpFields(insn, b20, mid, b11, lo, rd);
    SplitJ(imm);
    SignedAgain(imm, 0x20_0000);
  }

  lemma JumpFields(insn: u32, b20: nat, mid: nat, b11: nat, lo: nat, rd: Reg)
    requires b20 < 2 && mid < 0x100 && b11 < 2 && lo < 0x400
    requires insn == b20 * 0x8000_0000 + lo * 0x20_0000 + b11 * 0x10_0000 + mid * 0x1000 + rd * 0x80 + 0x6F
    ensures insn % 0x80 == 0x6F && insn / 0x80 % 0x20 == rd
    ensures insn / 0x8000_0000 == b20 && insn / 0x1000 % 0x100 == mid && insn / 0x10_0000 % 2 == b11
            && insn / 0x20_0000 % 0x400 == lo
  {
    var low: nat := rd * 0x80 + 0x6F;
    var t := (b20 * 0x400 + lo) * 2 + b11;
    Quotient(insn, 0x8000_0000, b20, lo * 0x20_0000 + b11 * 0x10_0000 + mid * 0x1000 + low);
    Quotient(insn, 0x20_0000, b20 * 0x400 + lo, b11 * 0x10_0000 + mid * 0x1000 + low);
    Quotient(insn, 0x10_0000, t, mid * 0x1000 + low);
    Quotient(insn, 0x1000, t * 0x100 + mid, low);
    Quotient(insn, 0x80, (t * 0x100 + mid) * 0x20 + rd, 0x6F);
    Quotient(b20 * 0x400 + lo, 0x400, b20, lo);
    Quotient(t, 2, b20 * 0x400 + lo, b11);
    Quotient(t * 0x100 + mid, 0x100, t, mid);
    Quotient((t * 0x100 + mid) * 0x20 + rd, 0x20, t * 0x100 + mid, rd);
  }

  lemma SplitJ(imm: int)
    requires imm % 2 == 0
    ensures imm % 0x20_0000 == imm / 0x10_0000 % 2 * 0x10_0000 + imm / 0x1000 % 0x100 * 0x1000 + imm / 0x800 % 2 * 0x800
                               + imm / 2 % 0x400 * 2
  {
    var a1 := imm / 2;
    var a11 := a1 / 0x400;
    var a12 := a11 / 2;
    var a20 := a12 / 0x100;
    Nested(imm, 2, 0x400);
    Nested(imm, 0x800, 2);
    Nested(imm, 0x1000, 0x100);
    Quotient(imm, 0x20_0000, a20 / 2, a20 % 2 * 0x10_0000 + a12 % 0x100 * 0x1000 + a11 % 2 * 0x800 + a1 % 0x400 * 2);
  }

  // ---- The expansion ------------------------------------------------------------------------------------------------

  /** The expansion does what `m` says: an instruction that decodes to the meaning, or a rejection. */
  ghost predicate Follows(e: Result<u32>, m: Rvc, c: u16) {
    match m
    case Means(op) => e.Ok? && Decode(e.value) == Ok(op)
    case Hint => e == Err(IllegalInstruction(c))
    case Reserved => e == Err(IllegalInstruction(c))
  }

  lemma Registers(c: u16)
    ensures CiImm(c) < 0x40 && CiImm(c) == Imm6(c)
    ensures InstBit(c, 12) == c / 0x1000 % 2
  {
    hide CiImm, InstBit;
    CiAgrees(c);
    FieldBits(c);
  }

  lemma Q0Follows(c: u16)
    requires c % 4 == 0
    ensures Follows(ExpandQ0(c, c / 0x2000), MeaningQ0(c), c)
  {
    hide Decode, EncodeI, EncodeS, CiwImm, ClwImm, CldImm, Addi4spnImm, LwImm, LdImm, RdPrime, Rs1Prime;
    CiwAgrees(c);
    ClwAgrees(c);
    CldAgrees(c);
    Q0Ranges(c);
    DecodesI(Addi4spnImm(c), 2, 0, RdPrime(c), 0x13);
    DecodesI(LwImm(c), Rs1Prime(c), 2, RdPrime(c), 0x03);
    DecodesI(LdImm(c), Rs1Prime(c), 3, RdPrime(c), 0x03);
    DecodesS(LwImm(c), RdPrime(c), Rs1Prime(c), 2);
    DecodesS(LdImm(c), RdPrime(c), Rs1Prime(c), 3);
  }

  lemma Q0Ranges(c: u16)
    ensures 0 <= Addi4spnImm(c) < 0x400 && 0 <= LwImm(c) < 0x80 && 0 <= LdImm(c) < 0x100
  {
  }

  lemma Q2Ranges(c: u16)
    ensures 0 <= LwspImm(c) < 0x100 && 0 <= LdspImm(c) < 0x200 && 0 <= SwspImm(c) < 0x100 && 0 <= SdspImm(c) < 0x200
    ensures 0 <= Imm6(c) < 0x40
  {
  }

  lemma Q2Follows(c: u16)
    requires c % 4 == 2
    ensures Follows(ExpandQ2(c, c / 0x2000), MeaningQ2(c), c)
  {
    hide Decode, EncodeI, EncodeS, EncodeR, CiImm, Imm6, ClwspImm, CldspImm, CswspImm, CsdspImm,
      LwspImm, LdspImm, SwspImm, SdspImm, RdFull, Rs2Full, InstBit;
    ClwspAgrees(c);
    CldspAgrees(c);
    CswspAgrees(c);
    CsdspAgrees(c);
    Registers(c);
    Q2Ranges(c);
    var rd, rs2 := RdFull(c), Rs2Full(c);
    DecodesI(Imm6(c), rd, 1, rd, 0x13);
    DecodesI(LwspImm(c), 2, 2, rd, 0x03);
    DecodesI(LdspImm(c), 2, 3, rd, 0x03);
    DecodesI(0, rd, 0, 0, 0x67);
    DecodesI(0, rd, 0, 1, 0x67);
    DecodesR(0, rs2, 0, 0, rd, 0x33);
    DecodesR(0, rs2, rd, 0, rd, 0x33);
    DecodesS(SwspImm(c), rs2, 2, 2);
    DecodesS(SdspImm(c), rs2, 2, 3);
    DecodesEbreak();
  }

  lemma DecodesEbreak()
    ensures Decode(0x0010_0073) == Ok(System(0, 0, 0, 1))
  {
  }

  lemma Q1Ranges(c: u16)
    ensures -0x20 <= Signed(Imm6(c), 0x40) < 0x20 && (Signed(Imm6(c), 0x40) == 0 <==> Imm6(c) == 0)
    ensures -0x200 <= Signed(Addi16spImm(c), 0x400) < 0x200
    ensures -0x800 <= Signed(JImm(c), 0x1000) < 0x800 && Signed(JImm(c), 0x1000) % 2 == 0
    ensures -0x100 <= Signed(BranchImm(c), 0x200) < 0x100 && Signed(BranchImm(c), 0x200) % 2 == 0
  {
    hide JImm, BranchImm, Imm6, Addi16spImm, Signed;
    Q2Ranges(c);
    JRange(c);
    BranchRange(c);
    Addi16Range(c);
    SignedRange(Imm6(c), 0x40);
    SignedRange(Addi16spImm(c), 0x400);
    SignedRange(JImm(c), 0x1000);
    SignedRange(BranchImm(c), 0x200);
  }

  lemma Addi16Range(c: u16)
    ensures 0 <= Addi16spImm(c) < 0x400
  {
  }

  lemma SignedRange(v: int, span: nat)
    requires 0 <= v < span && span % 2 == 0
    ensures 0 <= 2 * Signed(v, span) + span && 2 * Signed(v, span) < span && (Signed(v, span) == 0 <==> v == 0)
    ensures v % 2 == 0 ==> Signed(v, span) % 2 == 0
  {
  }

  lemma JRange(c: u16)
    ensures 0 <= JImm(c) < 0x1000 && JImm(c) % 2 == 0
  {
    var half := c / 0x1000 % 2 * 0x400 + c / 0x800 % 2 * 8 + c / 0x200 % 4 * 0x80 + c / 0x100 % 2 * 0x200
                + c / 0x80 % 2 * 0x20 + c / 0x40 % 2 * 0x40 + c / 8 % 8 + c / 4 % 2 * 0x10;
    assert JImm(c) == 2 * half;
  }

  lemma BranchRange(c: u16)
    ensures 0 <= BranchImm(c) < 0x200 && BranchImm(c) % 2 == 0
  {
    var half := c / 0x1000 % 2 * 0x80 + c / 0x400 % 4 * 4 + c / 0x20 % 4 * 0x20 + c / 8 % 4 + c / 4 % 2 * 0x10;
    assert BranchImm(c) == 2 * half;
  }

  lemma Q1Follows(c: u16)
    requires c % 4 == 1 && c / 0x2000 != 4
    ensures Follows(ExpandQ1(c, c / 0x2000), MeaningQ1(c), c)
  {
    hide Decode, EncodeI, EncodeU, EncodeJ, EncodeB, CiImm, Imm6, C16spImm, CjImm, CbImm, Addi16spImm, JImm, BranchImm,
      RdFull, Rs1Prime, Signed, ExpandAlu, MeaningAlu;
    Registers(c);
    C16spAgrees(c);
    CjAgrees(c);
    CbAgrees(c);
    Q1Ranges(c);
    var rd, imm := RdFull(c), Signed(Imm6(c), 0x40);
    DecodesI(imm, rd, 0, rd, 0x13);
    DecodesI(0, 0, 0, 0, 0x13);
    DecodesI(imm, rd, 0, rd, 0x1B);
    DecodesI(imm, 0, 0, rd, 0x13);
    DecodesI(Signed(Addi16spImm(c), 0x400), 2, 0, 2, 0x13);
    DecodesU(imm, rd);
    DecodesJ(Signed(JImm(c), 0x1000), 0);
    DecodesB(Signed(BranchImm(c), 0x200), 0, Rs1Prime(c), 0);
    DecodesB(Signed(BranchImm(c), 0x200), 0, Rs1Prime(c), 1);
  }

  lemma AluFollows(c: u16)
    requires c % 4 == 1 && c / 0x2000 == 4 && c / 0x400 % 4 != 1
    ensures Follows(ExpandAlu(c), MeaningAlu(c), c)
  {
    hide Decode, EncodeI, EncodeR, CiImm, Imm6, RdPrime, Rs1Prime, Signed, InstBit;
    Registers(c);
    Q1Ranges(c);
    Q2Ranges(c);
    var rd, rs2 := Rs1Prime(c), RdPrime(c);
    DecodesI(Imm6(c), rd, 5, rd, 0x13);
    DecodesI(Signed(Imm6(c), 0x40), rd, 7, rd, 0x13);
    DecodesR(0x20, rs2, rd, 0, rd, 0x33);
    DecodesR(0, rs2, rd, 4, rd, 0x33);
    DecodesR(0, rs2, rd, 6, rd, 0x33);
    DecodesR(0, rs2, rd, 7, rd, 0x33);
    DecodesR(0x20, rs2, rd, 0, rd, 0x3B);
    DecodesR(0, rs2, rd, 0, rd, 0x3B);
  }

  /** What C.SRAI expands to: bit 11 of the immediate is set instead of bit 10. */
  lemma CSraiExpands(c: u16)
    requires IsCSrai(c)
    ensures ExpandCompressed(c).Ok?
    ensures Decode(ExpandCompressed(c).value)
         == Ok(OpImm(Rs1Prime(c), Rs1Prime(c), Imm6(c) - 0x800, 5, (0x800 + Imm6(c)) / 0x20))
  {
    hide Decode, EncodeI, Imm6, Rs1Prime;
    Q2Ranges(c);
    var imm := Imm6(c) - 0x800;
    Quotient(imm, 0x1000, -1, imm + 0x1000);
    Quotient(0x800 + Imm6(c), 0x1000, 0, 0x800 + Imm6(c));
    SameEncoding(imm, Imm6(c) + 0x800, Rs1Prime(c));
    DecodesI(imm, Rs1Prime(c), 5, Rs1Prime(c), 0x13);
  }

  lemma SameEncoding(imm: int, other: int, rd: Reg)
    requires imm % 0x1000 == other % 0x1000
    ensures EncodeI(imm, rd, 5, rd, 0x13) == EncodeI(other, rd, 5, rd, 0x13)
  {
  }

  /** The expansion follows chapter 16 exactly, hints with destination x0 being rejected, on every encoding
      but C.SRAI. */
  lemma ExpansionFollows(c: u16)
    requires c % 4 != 3
    ensures Follows(ExpandCompressed(c), Meaning(c), c) <==> !IsCSrai(c)
  {
    hide MeaningQ0, MeaningQ2, ExpandQ0, ExpandQ2, Decode, ExpandAlu, MeaningAlu, CiImm, C16spImm, CjImm, CbImm, RdFull,
      Rs1Prime, Signed;
    if c % 4 == 0 {
      Q0Follows(c);
    } else if c % 4 == 2 {
      Q2Follows(c);
    } else if c / 0x2000 != 4 {
      Q1Follows(c);
    } else if c / 0x400 % 4 != 1 {
      AluFollows(c);
    } else {
      CSraiExpands(c);
      CSraiMeans(c);
    }
  }

  lemma CSraiMeans(c: u16)
    requires IsCSrai(c)
    ensures MeaningAlu(c).Means? && MeaningAlu(c).op.OpImm? && MeaningAlu(c).op.imm >= 0
    ensures Imm6(c) - 0x800 < 0
  {
    hide CiImm, Imm6;
    Registers(c);
    Q2Ranges(c);
  }

  /** Is `d` an immediate instruction that computes `v` from `a`? */
  ghost predicate ShiftsTo(d: Result<Op>, a: u64, v: u64) {
    match d
    case Ok(OpImm(_, _, imm, funct3, funct7)) => I.OpImmValue(funct3, funct7, a, imm) == Some(v)
    case _ => false
  }

  /** The expanded C.SRAI shifts in zeros, so it is right exactly when the operand is non-negative or the
      shift amount is 0. */
  lemma CSraiExact(c: u16, a: u64)
    requires IsCSrai(c)
    ensures ExpandCompressed(c).Ok? && ShiftsTo(Decode(ExpandCompressed(c).value), a, B.Shr(a, CiImm(c)))
    ensures B.Shr(a, CiImm(c)) == B.Sar(a, CiImm(c)) <==> a < 0x8000_0000_0000_0000 || CiImm(c) == 0
  {
    hide Decode, EncodeI, Imm6, Rs1Prime, CiImm, B.Sar, B.Shr, ExpandCompressed, I.OpImmValue;
    CSraiExpands(c);
    CSraiShift(c);
    ShiftsDiffer(a, CiImm(c));
    LogicalShift(a, Imm6(c));
  }

  lemma CSraiShift(c: u16)
    requires IsCSrai(c)
    ensures CiImm(c) == Imm6(c) && 0 <= Imm6(c) < 64
  {
    hide Imm6;
    Registers(c);
    Q2Ranges(c);
  }

  /** With bit 11 of the immediate set instead of bit 10 the shift is logical. */
  lemma LogicalShift(a: u64, n: nat)
    requires n < 64
    ensures I.OpImmValue(5, (0x800 + n) / 0x20, a, n - 0x800) == Some(B.Shr(a, n))
  {
    hide B.Sar, B.Shr;
    Quotient(n - 0x800, 0x40, -0x20, n);
    Quotient(0x800 + n, 0x20, 0x40 + n / 0x20, n % 0x20);
  }

  /** A logical and an arithmetic shift agree exactly on non-negative operands and on no shift. */
  lemma ShiftsDiffer(a: u64, n: nat)
    requires n < 64
    ensures B.Shr(a, n) == B.Sar(a, n) <==> a < 0x8000_0000_0000_0000 || n == 0
  {
    hide B.Pow2;
    B.Pow2Values();
    B.Pow2Add(n, 64 - n);
    var p, q := B.Pow2(n), B.Pow2(64 - n);
    if a >= 0x8000_0000_0000_0000 && n > 0 {
      NegativeQuotient(a, p, q);
      AtLeastTwo(n);
      HalfOrLess(p, q);
    } else if n == 0 {
      SmallPowers();
    } else {
      Small(a, p);
    }
  }

  lemma AtLeastTwo(n: nat)
    requires n > 0
    ensures B.Pow2(n) >= 2
  {
    assert B.Pow2(n) == 2 * B.Pow2(n - 1);
  }

  lemma Small(a: u64, p: nat)
    requires p > 0
    ensures 0 <= a / p < TWO_64
  {
    Grows(p, a / p);
    assert a == p * (a / p) + a % p;
  }

  lemma Grows(p: nat, d: nat)
    requires p > 0
    ensures p * d >= d
  {
  }

  lemma HalfOrLess(p: nat, q: nat)
    requires p >= 2 && p * q == TWO_64
    ensures 0 < q <= TWO_64 / 2
  {
    assert p * q >= 2 * q;
  }

  /** Dividing the negative value instead lowers the quotient by `q`. */
  lemma NegativeQuotient(a: u64, p: nat, q: nat)
    requires p > 0 && p * q == TWO_64
    ensures (a - TWO_64) / p == a / p - q && 0 <= a / p < q
  {
    var d, r := a / p, a % p;
    assert a == p * d + r;
    assert p * (d - q) == p * d - p * q;
    Quotient(a - TWO_64, p, d - q, r);
    assert d >= q ==> p * d >= p * q;
  }
}
