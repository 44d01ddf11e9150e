/** Decoding of every 32-bit word against section 2.3 of the RISC-V Unprivileged ISA 20191213: which bits of
    the instruction are its fields, and where each bit of its immediate comes from. */
module BaseFormats {
  import opened Base
  import opened Bits
  import opened BitLaws
  import D = Decoder

  datatype Format = FormatI | FormatS | FormatB | FormatU | FormatJ

  /** Where a bit of an immediate comes from. */
  datatype Source = Zero | From(bit: nat)

  /** Bit `j` of the immediate, sign extended to 64 bits; the sign is always instruction bit 31. */
  function SourceOf(f: Format, j: nat): Source {
    match f
    case FormatI => if j < 11 then From(20 + j) else From(31)
    case FormatS => if j < 5 then From(7 + j) else if j < 11 then From(20 + j) else From(31)
    case FormatB =>
      if j == 0 then Zero else if j < 5 then From(7 + j) else if j < 11 then From(20 + j)
      else if j == 11 then From(7) else From(31)
    case FormatU => if j < 12 then Zero else if j < 31 then From(j) else From(31)
    case FormatJ =>
      if j == 0 then Zero else if j < 11 then From(20 + j) else if j == 11 then From(20)
      else if j < 20 then From(j) else From(31)
  }

  ghost predicate BitPlaced(imm: int, insn: u32, f: Format, j: nat) {
    Bit(ToU64(imm), j) == (match SourceOf(f, j) case Zero => false case From(k) => Bit(insn, k))
  }

  /** `imm` is the 64-bit signed immediate of the instruction. */
  ghost predicate Immediate(imm: int, insn: u32, f: Format) {
    && -0x8000_0000_0000_0000 <= imm < 0x8000_0000_0000_0000
    && forall j: nat :: j < 64 ==> BitPlaced(imm, insn, f, j)
  }

  /** What decoding a word has to yield. */
  ghost predicate DecodesTo(insn: u32, r: Result<D.Op>) {
    var opcode, rd, funct3 := Field(insn, 0, 7), Field(insn, 7, 5), Field(insn, 12, 3);
    var rs1, rs2, funct7 := Field(insn, 15, 5), Field(insn, 20, 5), Field(insn, 25, 7);
    match r
    case Err(t) => !Defined(opcode) && t == IllegalInstruction(insn)
    case Ok(op) =>
      match op
      case Lui(d, imm) => opcode == 0x37 && d == rd && Immediate(imm, insn, FormatU)
      case Auipc(d, imm) => opcode == 0x17 && d == rd && Immediate(imm, insn, FormatU)
      case Jal(d, imm) => opcode == 0x6F && d == rd && Immediate(imm, insn, FormatJ)
      case Jalr(d, a, imm) => opcode == 0x67 && d == rd && a == rs1 && Immediate(imm, insn, FormatI)
      case Branch(a, b, imm, f3) =>
        opcode == 0x63 && a == rs1 && b == rs2 && f3 == funct3 && Immediate(imm, insn, FormatB)
      case Load(d, a, imm, f3) =>
        opcode == 0x03 && d == rd && a == rs1 && f3 == funct3 && Immediate(imm, insn, FormatI)
      case Store(a, b, imm, f3) =>
        opcode == 0x23 && a == rs1 && b == rs2 && f3 == funct3 && Immediate(imm, insn, FormatS)
      case OpImm(d, a, imm, f3, f7) =>
        opcode == 0x13 && d == rd && a == rs1 && f3 == funct3 && f7 == funct7 && Immediate(imm, insn, FormatI)
      case OpReg(d, a, b, f3, f7) =>
        opcode == 0x33 && d == rd && a == rs1 && b == rs2 && f3 == funct3 && f7 == funct7
      case OpImm32(d, a, imm, f3, f7) =>
        opcode == 0x1B && d == rd && a == rs1 && f3 == funct3 && f7 == funct7 && Immediate(imm, insn, FormatI)
      case OpReg32(d, a, b, f3, f7) =>
        opcode == 0x3B && d == rd && a == rs1 && b == rs2 && f3 == funct3 && f7 == funct7
      case Amo(d, a, b, f3, f5, aq, rl) =>
        && opcode == 0x2F && d == rd && a == rs1 && b == rs2 && f3 == funct3
        && f5 == Field(insn, 27, 5) && aq == Bit(insn, 26) && rl == Bit(insn, 25)
      case System(d, a, f3, imm) =>
        opcode == 0x73 && d == rd && a == rs1 && f3 == funct3 && imm == Field(insn, 20, 12)
      case Fence => opcode == 0x0F
  }

  /** The opcodes of RV64IMA with control registers. */
  predicate Defined(opcode: nat) {
    opcode in {0x37, 0x17, 0x6F, 0x67, 0x63, 0x03, 0x23, 0x13, 0x33, 0x1B, 0x3B, 0x2F, 0x73, 0x0F}
  }

  // ---- The fields by quotients -------------------------------------------------------------------------------

  lemma Powers()
    ensures Pow2(1) == 2 && Pow2(3) == 8 && Pow2(4) == 0x10 && Pow2(5) == 0x20 && Pow2(6) == 0x40 && Pow2(7) == 0x80
    ensures Pow2(8) == 0x100 && Pow2(10) == 0x400 && Pow2(11) == 0x800 && Pow2(12) == 0x1000 && Pow2(13) == 0x2000
    ensures Pow2(15) == 0x8000 && Pow2(20) == 0x10_0000 && Pow2(21) == 0x20_0000
    ensures Pow2(25) == 0x200_0000 && Pow2(26) == 0x400_0000 && Pow2(27) == 0x800_0000 && Pow2(31) == 0x8000_0000
    ensures Pow2(0) == 1 && Pow2(32) == 0x1_0000_0000
  {
    hide Pow2;
    SmallPowers();
    Pow2Add(1, 12);
    Pow2Add(3, 12);
    Pow2Add(8, 12);
    Pow2Add(1, 20);
    Pow2Add(5, 20);
    Pow2Add(6, 20);
    Pow2Add(7, 20);
    Pow2Add(11, 20);
    Pow2Add(12, 20);
  }

  lemma Fields(insn: u32)
    ensures Field(insn, 0, 7) == insn % 0x80 && Field(insn, 7, 5) == insn / 0x80 % 0x20
    ensures Field(insn, 12, 3) == insn / 0x1000 % 8 && Field(insn, 15, 5) == insn / 0x8000 % 0x20
    ensures Field(insn, 20, 5) == insn / 0x10_0000 % 0x20 && Field(insn, 25, 7) == insn / 0x200_0000
    ensures Field(insn, 27, 5) == insn / 0x800_0000 && Field(insn, 20, 12) == insn / 0x10_0000
    ensures Bit(insn, 25) <==> insn / 0x200_0000 % 2 == 1
    ensures Bit(insn, 26) <==> insn / 0x400_0000 % 2 == 1
  {
    hide Field, Pow2, Bit;
    Powers();
    FieldIs(insn, 0, 7, 1, 0x80);
    FieldIs(insn, 7, 5, 0x80, 0x20);
    FieldIs(insn, 12, 3, 0x1000, 8);
    FieldIs(insn, 15, 5, 0x8000, 0x20);
    FieldIs(insn, 20, 5, 0x10_0000, 0x20);
    FieldIs(insn, 25, 7, 0x200_0000, 0x80);
    FieldIs(insn, 27, 5, 0x800_0000, 0x20);
    FieldIs(insn, 20, 12, 0x10_0000, 0x1000);
    BitAt(insn, 25);
    BitAt(insn, 26);
  }

  lemma MoreFields(insn: u32)
    ensures Field(insn, 31, 1) == insn / 0x8000_0000 && Field(insn, 7, 1) == insn / 0x80 % 2
    ensures Field(insn, 25, 6) == insn / 0x200_0000 % 0x40 && Field(insn, 8, 4) == insn / 0x100 % 0x10
    ensures Field(insn, 12, 8) == insn / 0x1000 % 0x100 && Field(insn, 20, 1) == insn / 0x10_0000 % 2
    ensures Field(insn, 21, 10) == insn / 0x20_0000 % 0x400 && Field(insn, 12, 20) == insn / 0x1000
  {
    hide Field, Pow2, Bit;
    Powers();
    FieldIs(insn, 31, 1, 0x8000_0000, 2);
    FieldIs(insn, 7, 1, 0x80, 2);
    FieldIs(insn, 25, 6, 0x200_0000, 0x40);
    FieldIs(insn, 8, 4, 0x100, 0x10);
    FieldIs(insn, 12, 8, 0x1000, 0x100);
    FieldIs(insn, 20, 1, 0x10_0000, 2);
    FieldIs(insn, 21, 10, 0x20_0000, 0x400);
    FieldIs(insn, 12, 20, 0x1000, 0x10_0000);
  }

  // ---- The immediates ------------------------------------------------------------------------------------------

  /** A field of the instruction above what is placed already. */
  lemma Above(insn: u32, lo: nat, at: nat, from: nat, n: nat, j: nat)
    requires lo < Pow2(at)
    ensures Bit(lo + Pow2(at) * Field(insn, from, n), j)
         == if j < at then Bit(lo, j) else j < at + n && Bit(insn, from + (j - at))
  {
    BitOfConcat(lo, Field(insn, from, n), at, j);
    if j >= at {
      BitOfField(insn, from, n, j - at);
    }
  }

  lemma BitOfI(insn: u32, j: nat)
    requires j < 64
    ensures BitPlaced(D.ImmI(insn), insn, FormatI, j)
  {
    hide Field, Pow2, Bit, ToU64;
    Powers();
    Fields(insn);
    BitOfSignExtended(Field(insn, 20, 12), 12, j);
    BitOfField(insn, 20, 12, if j < 12 then j else 11);
  }

  lemma BitOfS(insn: u32, j: nat)
    requires j < 64
    ensures BitPlaced(D.ImmS(insn), insn, FormatS, j)
  {
    hide Field, Pow2, Bit, ToU64;
    Powers();
    Fields(insn);
    var v := Field(insn, 7, 5) + Pow2(5) * Field(insn, 25, 7);
    assert D.ImmS(insn) == if v >= 0x800 then v - 0x1000 else v;
    BitOfSignExtended(v, 12, j);
    var k := if j < 12 then j else 11;
    Above(insn, Field(insn, 7, 5), 5, 25, 7, k);
    BitOfField(insn, 7, 5, k);
  }

  lemma BitOfB(insn: u32, j: nat)
    requires j < 64
    ensures BitPlaced(D.ImmB(insn), insn, FormatB, j)
  {
    hide Field, Pow2, Bit, ToU64;
    Powers();
    MoreFields(insn);
    var p1 := 0 + Pow2(1) * Field(insn, 8, 4);
    var p2 := p1 + Pow2(5) * Field(insn, 25, 6);
    var p3 := p2 + Pow2(11) * Field(insn, 7, 1);
    var v := p3 + Pow2(12) * Field(insn, 31, 1);
    assert D.ImmB(insn) == if v >= 0x1000 then v - 0x2000 else v;
    BitOfSignExtended(v, 13, j);
    var k := if j < 13 then j else 12;
    Above(insn, p3, 12, 31, 1, k);
    Above(insn, p2, 11, 7, 1, k);
    Above(insn, p1, 5, 25, 6, k);
    Above(insn, 0, 1, 8, 4, k);
    BitOfZero(k);
  }

  lemma BitOfU(insn: u32, j: nat)
    requires j < 64
    ensures BitPlaced(D.ImmU(insn), insn, FormatU, j)
  {
    hide Field, Pow2, Bit, ToU64;
    Powers();
    MoreFields(insn);
    var v := 0 + Pow2(12) * Field(insn, 12, 20);
    assert D.ImmU(insn) == if v >= 0x8000_0000 then v - 0x1_0000_0000 else v;
    BitOfSignExtended(v, 32, j);
    var k := if j < 32 then j else 31;
    Above(insn, 0, 12, 12, 20, k);
    BitOfZero(k);
  }

  lemma BitOfJ(insn: u32, j: nat)
    requires j < 64
    ensures BitPlaced(D.ImmJ(insn), insn, FormatJ, j)
  {
    hide Field, Pow2, Bit, ToU64;
    Powers();
    MoreFields(insn);
    var p1 := 0 + Pow2(1) * Field(insn, 21, 10);
    var p2 := p1 + Pow2(11) * Field(insn, 20, 1);
    var p3 := p2 + Pow2(12) * Field(insn, 12, 8);
    var v := p3 + Pow2(20) * Field(insn, 31, 1);
    assert D.ImmJ(insn) == if v >= 0x10_0000 then v - 0x20_0000 else v;
    BitOfSignExtended(v, 21, j);
    var k := if j < 21 then j else 20;
    Above(insn, p3, 20, 31, 1, k);
    Above(insn, p2, 12, 12, 8, k);
    Above(insn, p1, 11, 20, 1, k);
    Above(insn, 0, 1, 21, 10, k);
    BitOfZero(k);
  }

  lemma Immediates(insn: u32)
    ensures Immediate(D.ImmI(insn), insn, FormatI) && Immediate(D.ImmS(insn), insn, FormatS)
    ensures Immediate(D.ImmB(insn), insn, FormatB) && Immediate(D.ImmU(insn), insn, FormatU)
    ensures Immediate(D.ImmJ(insn), insn, FormatJ)
  {
    hide BitPlaced;
    forall j: nat | j < 64
      ensures BitPlaced(D.ImmI(insn), insn, FormatI, j) && BitPlaced(D.ImmS(insn), insn, FormatS, j)
      ensures BitPlaced(D.ImmB(insn), insn, FormatB, j) && BitPlaced(D.ImmU(insn), insn, FormatU, j)
      ensures BitPlaced(D.ImmJ(insn), insn, FormatJ, j)
    {
      BitOfI(insn, j);
      BitOfS(insn, j);
      BitOfB(insn, j);
      BitOfU(insn, j);
      BitOfJ(insn, j);
    }
  }

  /** Decoding yields, for every word, the instruction the formats say, and refuses exactly the words whose
      opcode is none of the fourteen. */
  lemma DecodeFollows(insn: u32)
    ensures DecodesTo(insn, D.Decode(insn))
    ensures D.Decode(insn).Ok? <==> Defined(Field(insn, 0, 7))
  {
    hide Field, Bit, Immediate, D.ImmI, D.ImmS, D.ImmB, D.ImmU, D.ImmJ;
    Fields(insn);
    Immediates(insn);
  }
}
