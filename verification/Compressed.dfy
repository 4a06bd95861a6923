/** The 16-bit instructions: what each abbreviates (section 16 of the RISC-V Unprivileged
    ISA, version 20191213), and the agreement of their assembler with their decoder. */
module Compressed {
  import opened Words
  import opened Isa
  import opened Decoder
  import opened Encoder

  // ---------------------------------------------------------------- expansion

  /** The 32-bit word a legal 16-bit instruction abbreviates. */
  function Expand(c: bv32): bv32 {
    var funct3 := BitRange(c, 15, 13);
    if c & 3 == 0 then Expand0(c, funct3)
    else if c & 3 == 1 then Expand1(c, funct3)
    else Expand2(c, funct3)
  }

  function Expand0(c: bv32, funct3: bv32): bv32 {
    var low := CReg(BitRange(c, 4, 2));
    var base := CReg(BitRange(c, 9, 7));
    if funct3 == 0 then IType(CAddi4spnImm(c), 2, 0, low, 0x13)  // addi rd', x2, imm
    else if funct3 == 2 then IType(CLwImm(c), base, 2, low, 0x03)  // lw rd', imm(rs1')
    else SType(CLwImm(c), low, base, 2, 0x23)  // sw rs2', imm(rs1')
  }

  function Expand1(c: bv32, funct3: bv32): bv32 {
    var rd := BitRange(c, 11, 7);
    var base := CReg(BitRange(c, 9, 7));
    if funct3 == 0 then IType(CImm6(c), rd, 0, rd, 0x13)  // addi rd, rd, imm
    else if funct3 == 1 then JType(CJumpImm(c), 1, 0x6F)  // jal x1, offset
    else if funct3 == 2 then IType(CImm6(c), 0, 0, rd, 0x13)  // addi rd, x0, imm
    else if funct3 == 3 && rd == 2 then IType(CAddi16spImm(c), 2, 0, 2, 0x13)  // addi x2, x2, imm
    else if funct3 == 3 then UType(CImm6(c) << 12, rd, 0x37)  // lui rd, imm
    else if funct3 == 4 then ExpandAlu(c, base)
    else if funct3 == 5 then JType(CJumpImm(c), 0, 0x6F)  // jal x0, offset
    else if funct3 == 6 then BType(CBranchImm(c), 0, base, 0, 0x63)  // beq rs1', x0, offset
    else BType(CBranchImm(c), 0, base, 1, 0x63)  // bne rs1', x0, offset
  }

  function ExpandAlu(c: bv32, rd: bv32): bv32 {
    var shamt := BitRange(c, 6, 2);
    var rs2 := CReg(BitRange(c, 4, 2));
    var subop := BitRange(c, 11, 10);
    if subop == 0 then IType(shamt, rd, 5, rd, 0x13)  // srli rd', rd', shamt
    else if subop == 1 then IType(ShiftField(0x20, shamt), rd, 5, rd, 0x13)  // srai rd', rd', shamt
    else if subop == 2 then IType(CImm6(c), rd, 7, rd, 0x13)  // andi rd', rd', imm
    else if BitRange(c, 6, 5) == 0 then RType(0x20, rs2, rd, 0, rd, 0x33)  // sub rd', rd', rs2'
    else if BitRange(c, 6, 5) == 1 then RType(0, rs2, rd, 4, rd, 0x33)  // xor
    else if BitRange(c, 6, 5) == 2 then RType(0, rs2, rd, 6, rd, 0x33)  // or
    else RType(0, rs2, rd, 7, rd, 0x33)  // and
  }

  function Expand2(c: bv32, funct3: bv32): bv32 {
    var rd := BitRange(c, 11, 7);
    var rs2 := BitRange(c, 6, 2);
    if funct3 == 0 then IType(rs2, rd, 1, rd, 0x13)  // slli rd, rd, shamt
    else if funct3 == 2 then IType(CLwspImm(c), 2, 2, rd, 0x03)  // lw rd, imm(x2)
    else if funct3 == 6 then SType(CSwspImm(c), rs2, 2, 2, 0x23)  // sw rs2, imm(x2)
    else if BitRange(c, 12, 12) == 0 then
      if rs2 == 0 then IType(0, rd, 0, 0, 0x67)  // jalr x0, 0(rs1)
      else RType(0, rs2, 0, 0, rd, 0x33)  // add rd, x0, rs2
    else if rs2 == 0 then
      if rd == 0 then 0x0010_0073  // ebreak
      else IType(0, rd, 0, 1, 0x67)  // jalr x1, 0(rs1)
    else RType(0, rs2, rd, 0, rd, 0x33)  // add rd, rd, rs2
  }

  /** The immediates of the 16-bit formats fit the 32-bit ones. */
  lemma Imm6Fits(c: bv32)
    ensures Fits(CImm6(c), 12) && (CImm6(c) << 12) & 0xFFF == 0
  {
  }

  lemma Addi16spFits(c: bv32)
    ensures Fits(CAddi16spImm(c), 12)
  {
  }

  lemma Addi4spnFits(c: bv32)
    ensures Fits(CAddi4spnImm(c), 12)
  {
  }

  lemma LwFits(c: bv32)
    ensures Fits(CLwImm(c), 12)
  {
  }

  lemma LwspFits(c: bv32)
    ensures Fits(CLwspImm(c), 12)
  {
  }

  lemma SwspFits(c: bv32)
    ensures Fits(CSwspImm(c), 12)
  {
  }

  lemma BranchOffsetFits(c: bv32)
    ensures Fits(CBranchImm(c), 13) && CBranchImm(c) & 1 == 0
  {
  }

  lemma JumpOffsetFits(c: bv32)
    ensures Fits(CJumpImm(c), 21) && CJumpImm(c) & 1 == 0
  {
  }

  lemma ShamtFits(c: bv32)
    ensures BitRange(c, 6, 2) < 32
  {
  }

  lemma ExpandEncodes0Alu(c: bv32)
    requires DecodeQuadrant0(c).Success? && BitRange(c, 15, 13) == 0
    ensures WellRanged(DecodeQuadrant0(c).value) &&
            Expand0(c, BitRange(c, 15, 13)) == Encode32(DecodeQuadrant0(c).value)
  {
    Addi4spnFits(c);
    hide BitRange, CReg, Fits, CAddi4spnImm, CLwImm;
    hide IType, RType, SType, BType, UType, JType, CsrType, Funct3OfCsr, Funct3OfBranch, Funct3OfLoad, Funct3OfStore;
  }

  lemma ExpandEncodes0Memory(c: bv32)
    requires DecodeQuadrant0(c).Success? && BitRange(c, 15, 13) != 0
    ensures WellRanged(DecodeQuadrant0(c).value) &&
            Expand0(c, BitRange(c, 15, 13)) == Encode32(DecodeQuadrant0(c).value)
  {
    LwFits(c);
    hide BitRange, CReg, Fits, CAddi4spnImm, CLwImm;
    hide IType, RType, SType, BType, UType, JType, CsrType, Funct3OfCsr, Funct3OfBranch;
  }

  lemma NoShiftField(imm: bv32)
    ensures ShiftField(0, imm) == imm
  {
  }

  lemma ShiftEncodes(op: AluOp, rd: bv32, imm: bv32)
    requires (op == Srl || op == Sra) && IsReg(rd) && imm < 32
    ensures var i := OpImm(op, rd, rd, imm);
      WellRanged(i) && Encode32(i) == IType(if op == Srl then imm else ShiftField(0x20, imm), rd, 5, rd, 0x13)
  {
    NoShiftField(imm);
    hide IType, IsReg, ShiftField;
  }

  lemma ExpandEncodesShift(c: bv32)
    requires DecodeCAlu(c).Success? && BitRange(c, 11, 10) < 2
    ensures WellRanged(DecodeCAlu(c).value) && ExpandAlu(c, CReg(BitRange(c, 9, 7))) == Encode32(DecodeCAlu(c).value)
  {
    hide BitRange, CReg, CImm6, IType, RType, Encode32, WellRanged, IsReg, ShiftField;
    ShamtFits(c);
    ZeroOrOne(BitRange(c, 11, 10));
    var rd, shamt := CReg(BitRange(c, 9, 7)), BitRange(c, 6, 2);
    var op := if BitRange(c, 11, 10) == 0 then Srl else Sra;
    assert IsReg(rd) && DecodeCAlu(c) == Success(OpImm(op, rd, rd, shamt));
    ShiftEncodes(op, rd, shamt);
  }

  lemma ZeroOrOne(v: bv32)
    ensures v < 2 ==> v == 0 || v == 1
  {
  }

  lemma ExpandEncodesAndi(c: bv32)
    requires DecodeCAlu(c).Success? && BitRange(c, 11, 10) == 2
    ensures WellRanged(DecodeCAlu(c).value) && ExpandAlu(c, CReg(BitRange(c, 9, 7))) == Encode32(DecodeCAlu(c).value)
  {
    Imm6Fits(c);
    hide BitRange, CReg, Fits, CImm6;
    hide ShiftField, IType, RType, SType, BType, UType, JType, CsrType, Funct3OfCsr, Funct3OfBranch, Funct3OfLoad,
         Funct3OfStore;
  }

  lemma ExpandEncodesRegisters(c: bv32)
    requires DecodeCAlu(c).Success? && BitRange(c, 11, 10) > 2
    ensures WellRanged(DecodeCAlu(c).value) && ExpandAlu(c, CReg(BitRange(c, 9, 7))) == Encode32(DecodeCAlu(c).value)
  {
    hide BitRange, CReg, Fits, CImm6;
    hide IType, RType, SType, BType, UType, JType, CsrType, Funct3OfCsr, Funct3OfBranch, Funct3OfLoad, Funct3OfStore;
  }

  lemma AddiEncodes(rd: bv32, rs1: bv32, imm: bv32)
    requires IsReg(rd) && IsReg(rs1) && Fits(imm, 12)
    ensures WellRanged(OpImm(Add, rd, rs1, imm)) && Encode32(OpImm(Add, rd, rs1, imm)) == IType(imm, rs1, 0, rd, 0x13)
  {
    hide Fits, IType, IsReg;
  }

  lemma ExpandEncodes1Immediate(c: bv32)
    requires DecodeQuadrant1(c).Success? && (BitRange(c, 15, 13) == 0 || BitRange(c, 15, 13) == 2)
    ensures WellRanged(DecodeQuadrant1(c).value) &&
            Expand1(c, BitRange(c, 15, 13)) == Encode32(DecodeQuadrant1(c).value)
  {
    hide BitRange, CReg, Fits, CImm6, CJumpImm, CAddi16spImm, CBranchImm, ExpandAlu, DecodeCAlu;
    hide IType, UType, JType, BType, Encode32, WellRanged, IsReg;
    var rd := BitRange(c, 11, 7);
    var rs1 := if BitRange(c, 15, 13) == 0 then rd else 0;
    assert Fits(CImm6(c), 12) by {
      Imm6Fits(c);
    }
    assert IsReg(rd) && IsReg(rs1) && DecodeQuadrant1(c) == Success(OpImm(Add, rd, rs1, CImm6(c)));
    AddiEncodes(rd, rs1, CImm6(c));
  }

  lemma ExpandEncodes1Jump(c: bv32)
    requires DecodeQuadrant1(c).Success? && (BitRange(c, 15, 13) == 1 || BitRange(c, 15, 13) == 5)
    ensures WellRanged(DecodeQuadrant1(c).value) &&
            Expand1(c, BitRange(c, 15, 13)) == Encode32(DecodeQuadrant1(c).value)
  {
    JumpOffsetFits(c);
    hide BitRange, CReg, Fits, CImm6, CJumpImm, CAddi16spImm, CBranchImm, ExpandAlu, DecodeCAlu;
    hide ShiftField, IType, RType, SType, BType, UType, JType, CsrType, Funct3OfCsr, Funct3OfBranch, Funct3OfLoad,
         Funct3OfStore;
  }

  lemma ExpandEncodes1Lui(c: bv32)
    requires DecodeQuadrant1(c).Success? && BitRange(c, 15, 13) == 3
    ensures WellRanged(DecodeQuadrant1(c).value) &&
            Expand1(c, BitRange(c, 15, 13)) == Encode32(DecodeQuadrant1(c).value)
  {
    Imm6Fits(c);
    Addi16spFits(c);
    hide BitRange, CReg, Fits, CImm6, CJumpImm, CAddi16spImm, CBranchImm, ExpandAlu, DecodeCAlu;
    hide ShiftField, IType, RType, SType, BType, UType, JType, CsrType, Funct3OfCsr, Funct3OfBranch, Funct3OfLoad,
         Funct3OfStore;
  }

  lemma ExpandEncodes1Branch(c: bv32)
    requires DecodeQuadrant1(c).Success? && BitRange(c, 15, 13) > 5
    ensures WellRanged(DecodeQuadrant1(c).value) &&
            Expand1(c, BitRange(c, 15, 13)) == Encode32(DecodeQuadrant1(c).value)
  {
    BranchOffsetFits(c);
    hide BitRange, CReg, Fits, CImm6, CJumpImm, CAddi16spImm, CBranchImm, ExpandAlu, DecodeCAlu;
    hide ShiftField, IType, RType, SType, BType, UType, JType, CsrType, Funct3OfCsr, Funct3OfLoad, Funct3OfStore;
  }

  lemma ExpandEncodes2Slli(c: bv32)
    requires DecodeQuadrant2(c).Success? && BitRange(c, 15, 13) == 0
    ensures WellRanged(DecodeQuadrant2(c).value) &&
            Expand2(c, BitRange(c, 15, 13)) == Encode32(DecodeQuadrant2(c).value)
  {
    ShamtFits(c);
    hide BitRange, Fits, CLwspImm, CSwspImm;
    hide IType, RType, SType, BType, UType, JType, CsrType, Funct3OfCsr, Funct3OfBranch, Funct3OfLoad, Funct3OfStore;
  }

  lemma ExpandEncodes2Memory(c: bv32)
    requires DecodeQuadrant2(c).Success? && (BitRange(c, 15, 13) == 2 || BitRange(c, 15, 13) == 6)
    ensures WellRanged(DecodeQuadrant2(c).value) &&
            Expand2(c, BitRange(c, 15, 13)) == Encode32(DecodeQuadrant2(c).value)
  {
    LwspFits(c);
    SwspFits(c);
    hide BitRange, Fits, CLwspImm, CSwspImm;
    hide IType, RType, SType, BType, UType, JType, CsrType, Funct3OfCsr, Funct3OfBranch;
  }

  lemma ExpandEncodes2Register(c: bv32)
    requires DecodeQuadrant2(c).Success? && BitRange(c, 15, 13) == 4
    ensures WellRanged(DecodeQuadrant2(c).value) &&
            Expand2(c, BitRange(c, 15, 13)) == Encode32(DecodeQuadrant2(c).value)
  {
    assert Fits(0, 12);
    hide BitRange, Fits, CLwspImm, CSwspImm;
    hide IType, RType, SType, BType, UType, JType, CsrType, Funct3OfCsr, Funct3OfBranch, Funct3OfLoad, Funct3OfStore;
  }

  /** The word named by the expansion table is the assembler's encoding of the decoded instruction. */
  lemma ExpandEncodes(c: bv32)
    requires Decode16(c).Success?
    ensures WellRanged(Decode16(c).value) && Expand(c) == Encode32(Decode16(c).value)
  {
    hide BitRange, Expand0, Expand1, Expand2, DecodeQuadrant0, DecodeQuadrant1, WellRanged, Encode32;
    var funct3 := BitRange(c, 15, 13);
    if c & 3 == 0 {
      if funct3 == 0 { ExpandEncodes0Alu(c); } else { ExpandEncodes0Memory(c); }
    } else if c & 3 == 1 {
      ExpandEncodes1(c);
    } else if funct3 == 0 {
      ExpandEncodes2Slli(c);
    } else if funct3 == 2 || funct3 == 6 {
      ExpandEncodes2Memory(c);
    } else {
      ExpandEncodes2Register(c);
    }
  }

  lemma ExpandEncodes1(c: bv32)
    requires DecodeQuadrant1(c).Success?
    ensures WellRanged(DecodeQuadrant1(c).value) &&
            Expand1(c, BitRange(c, 15, 13)) == Encode32(DecodeQuadrant1(c).value)
  {
    var funct3 := BitRange(c, 15, 13);
    if funct3 == 0 || funct3 == 2 {
      ExpandEncodes1Immediate(c);
    } else if funct3 == 1 || funct3 == 5 {
      ExpandEncodes1Jump(c);
    } else if funct3 == 3 {
      ExpandEncodes1Lui(c);
    } else if funct3 == 4 {
      if BitRange(c, 11, 10) < 2 { ExpandEncodesShift(c); }
      else if BitRange(c, 11, 10) == 2 { ExpandEncodesAndi(c); }
      else { ExpandEncodesRegisters(c); }
    } else {
      ExpandEncodes1Branch(c);
    }
    hide BitRange, CReg, WellRanged, Encode32, ExpandAlu, DecodeCAlu;
  }

  /** A legal 16-bit instruction and its expansion decode to the same instruction. */
  lemma ExpansionDecodesTheSame(c: bv32)
    requires Decode16(c).Success?
    ensures Decode32(Expand(c)) == Decode16(c)
  {
    hide Expand, Decode16, Encode32, Decode32;
    ExpandEncodes(c);
    DecodeEncode(Decode16(c).value);
  }

  // ---------------------------------------------------------------- the 16-bit assembler

  /** A compact register field holds x8..x15 only. */
  function CompactField(reg: bv32): Result<bv32, string> {
    if 8 <= reg <= 15 then Success(reg - 8) else Failure("compressed compact register must be x8..x15")
  }

  function CCi(funct3: bv32, rd: bv32, imm: bv32): bv32 {
    ((funct3 & 0x7) << 13) | (((imm >> 5) & 0x1) << 12) | ((rd & 0x1F) << 7) | ((imm & 0x1F) << 2) | 0x1
  }

  function CAddi(rd: bv32, imm: bv32): bv32 {
    CCi(0, rd, imm)
  }

  function CLi(rd: bv32, imm: bv32): bv32 {
    CCi(2, rd, imm)
  }

  function CLui(rd: bv32, imm: bv32): bv32 {
    CCi(3, rd, imm)
  }

  function CAddi16sp(imm: bv32): bv32 {
    (0x3 << 13) | (((imm >> 9) & 0x1) << 12) | (2 << 7) | (((imm >> 4) & 0x1) << 6) | (((imm >> 6) & 0x1) << 5)
    | (((imm >> 7) & 0x3) << 3) | (((imm >> 5) & 0x1) << 2) | 0x1
  }

  function CAddi4spn(rd: bv32, imm: bv32): Result<bv32, string> {
    var field :- CompactField(rd);
    Success((((imm >> 4) & 0x3) << 11) | (((imm >> 6) & 0xF) << 7) | (((imm >> 2) & 0x1) << 6)
            | (((imm >> 3) & 0x1) << 5) | (field << 2))
  }

  function CLw(rd: bv32, rs1: bv32, imm: bv32): Result<bv32, string> {
    var base :- CompactField(rs1);
    var field :- CompactField(rd);
    Success((0x2 << 13) | (((imm >> 3) & 0x7) << 10) | (base << 7) | (((imm >> 2) & 0x1) << 6)
            | (((imm >> 6) & 0x1) << 5) | (field << 2))
  }

  function CSw(rs2: bv32, rs1: bv32, imm: bv32): Result<bv32, string> {
    var base :- CompactField(rs1);
    var field :- CompactField(rs2);
    Success((0x6 << 13) | (((imm >> 3) & 0x7) << 10) | (base << 7) | (((imm >> 2) & 0x1) << 6)
            | (((imm >> 6) & 0x1) << 5) | (field << 2))
  }

  function CLwsp(rd: bv32, imm: bv32): bv32 {
    (0x2 << 13) | (((imm >> 5) & 0x1) << 12) | ((rd & 0x1F) << 7) | (((imm >> 2) & 0x7) << 4)
    | (((imm >> 6) & 0x3) << 2) | 0x2
  }

  function CSwsp(rs2: bv32, imm: bv32): bv32 {
    (0x6 << 13) | (((imm >> 2) & 0xF) << 9) | (((imm >> 6) & 0x3) << 7) | ((rs2 & 0x1F) << 2) | 0x2
  }

  function CJ(funct3: bv32, imm: bv32): bv32 {
    (funct3 << 13) | (((imm >> 11) & 0x1) << 12) | (((imm >> 4) & 0x1) << 11) | (((imm >> 8) & 0x3) << 9)
    | (((imm >> 10) & 0x1) << 8) | (((imm >> 6) & 0x1) << 7) | (((imm >> 7) & 0x1) << 6)
    | (((imm >> 1) & 0x7) << 3) | (((imm >> 5) & 0x1) << 2) | 0x1
  }

  function CBranch(funct3: bv32, rs1: bv32, imm: bv32): Result<bv32, string> {
    var field :- CompactField(rs1);
    Success((funct3 << 13) | (((imm >> 8) & 0x1) << 12) | (((imm >> 3) & 0x3) << 10) | (field << 7)
            | (((imm >> 6) & 0x3) << 5) | (((imm >> 1) & 0x3) << 3) | (((imm >> 5) & 0x1) << 2) | 0x1)
  }

  function CSlli(rd: bv32, shamt: bv32): bv32 {
    ((rd & 0x1F) << 7) | ((shamt & 0x1F) << 2) | 0x2
  }

  function CCa(op: bv32, rd: bv32, rs2: bv32): Result<bv32, string> {
    var rdField :- CompactField(rd);
    var rs2Field :- CompactField(rs2);
    Success((0x4 << 13) | (0x3 << 10) | (rdField << 7) | (op << 5) | (rs2Field << 2) | 0x1)
  }

  function CCr(bit12: bv32, rd: bv32, rs2: bv32): bv32 {
    (0x4 << 13) | ((bit12 & 0x1) << 12) | ((rd & 0x1F) << 7) | ((rs2 & 0x1F) << 2) | 0x2
  }

  function CEbreak(): bv32 {
    CCr(1, 0, 0)
  }

  // ---------------------------------------------------------------- assembling then decoding

  lemma CiBits(funct3: bv32, rd: bv32, imm: bv32)
    requires funct3 < 8 && rd < 16 && Fits(imm, 6)
    ensures var w := CCi(funct3, rd, imm);
      IsCompressed(w) && w & 3 == 1 && BitRange(w, 15, 13) == funct3 && BitRange(w, 11, 7) == rd && CImm6(w) == imm
  {
  }

  /** Register-immediate encodings: the 6-bit immediate is recovered with its sign. */
  lemma DecodeAddi(rd: bv32, imm: bv32)
    requires rd < 16 && Fits(imm, 6)
    ensures IsCompressed(CAddi(rd, imm)) && Decode16(CAddi(rd, imm)) == Success(OpImm(Add, rd, rd, imm))
  {
    CiBits(0, rd, imm);
    hide CCi, BitRange, CImm6;
  }

  lemma DecodeLi(rd: bv32, imm: bv32)
    requires rd < 16 && Fits(imm, 6)
    ensures IsCompressed(CLi(rd, imm)) && Decode16(CLi(rd, imm)) == Success(OpImm(Add, rd, 0, imm))
  {
    CiBits(2, rd, imm);
    hide CCi, BitRange, CImm6;
  }

  /** C.LUI of x2 is C.ADDI16SP, and a zero immediate is illegal. */
  lemma DecodeLui(rd: bv32, imm: bv32)
    requires rd < 16 && rd != 2 && imm != 0 && Fits(imm, 6)
    ensures IsCompressed(CLui(rd, imm)) && Decode16(CLui(rd, imm)) == Success(Lui(rd, imm << 12))
  {
    CiBits(3, rd, imm);
    hide CCi, BitRange, CImm6;
  }

  lemma DecodeSlli(rd: bv32, shamt: bv32)
    requires rd < 16 && shamt < 32
    ensures IsCompressed(CSlli(rd, shamt)) && Decode16(CSlli(rd, shamt)) == Success(OpImm(Sll, rd, rd, shamt))
  {
    SlliIsCompressed(rd, shamt);
    hide IsCompressed;
  }

  lemma SlliIsCompressed(rd: bv32, shamt: bv32)
    ensures IsCompressed(CSlli(rd, shamt))
  {
  }

  lemma DecodeAddi16sp(imm: bv32)
    requires Fits(imm, 10) && imm & 0xF == 0 && imm != 0
    ensures IsCompressed(CAddi16sp(imm)) && Decode16(CAddi16sp(imm)) == Success(OpImm(Add, 2, 2, imm))
  {
  }

  /** The encoders take compact registers and no others. */
  lemma CompactAccepted(a: bv32, b: bv32, imm: bv32)
    ensures CAddi4spn(a, imm).Success? <==> 8 <= a <= 15
    ensures CLw(a, b, imm).Success? <==> 8 <= a <= 15 && 8 <= b <= 15
    ensures CSw(a, b, imm).Success? <==> 8 <= a <= 15 && 8 <= b <= 15
    ensures CCa(imm, a, b).Success? <==> 8 <= a <= 15 && 8 <= b <= 15
    ensures CBranch(imm, a, b).Success? <==> 8 <= a <= 15
  {
  }

  lemma Addi4spnBits(rd: bv32, imm: bv32)
    requires 8 <= rd <= 15 && imm < 1024 && imm & 3 == 0 && imm != 0
    ensures var w := CAddi4spn(rd, imm).value;
      IsCompressed(w) && w & 3 == 0 && w != 0 && BitRange(w, 15, 13) == 0 && CReg(BitRange(w, 4, 2)) == rd &&
          CAddi4spnImm(w) == imm
  {
  }

  lemma DecodeAddi4spn(rd: bv32, imm: bv32)
    requires imm < 1024 && imm & 3 == 0 && imm != 0
    ensures CAddi4spn(rd, imm).Success? <==> 8 <= rd <= 15
    ensures CAddi4spn(rd, imm).Success? ==>
            IsCompressed(CAddi4spn(rd, imm).value) && Decode16(CAddi4spn(rd, imm).value) ==
            Success(OpImm(Add, rd, 2, imm))
  {
    hide CAddi4spn, BitRange, CReg, CAddi4spnImm;
    CompactAccepted(rd, rd, imm);
    if 8 <= rd <= 15 {
      Addi4spnBits(rd, imm);
    }
  }

  lemma LwBits(reg: bv32, rs1: bv32, imm: bv32)
    requires 8 <= reg <= 15 && 8 <= rs1 <= 15 && imm < 128 && imm & 3 == 0
    ensures var w := CLw(reg, rs1, imm).value;
      IsCompressed(w) && w & 3 == 0 && w != 0 && BitRange(w, 15, 13) == 2 && CReg(BitRange(w, 4, 2)) == reg
      && CReg(BitRange(w, 9, 7)) == rs1 && CLwImm(w) == imm
  {
  }

  lemma DecodeLw(reg: bv32, rs1: bv32, imm: bv32)
    requires imm < 128 && imm & 3 == 0
    ensures CLw(reg, rs1, imm).Success? <==> 8 <= reg <= 15 && 8 <= rs1 <= 15
    ensures CLw(reg, rs1, imm).Success? ==>
            IsCompressed(CLw(reg, rs1, imm).value) && Decode16(CLw(reg, rs1, imm).value) ==
            Success(Load(Lw, reg, rs1, imm))
  {
    hide CLw, BitRange, CReg, CLwImm;
    CompactAccepted(reg, rs1, imm);
    if 8 <= reg <= 15 && 8 <= rs1 <= 15 {
      LwBits(reg, rs1, imm);
    }
  }

  lemma SwBits(reg: bv32, rs1: bv32, imm: bv32)
    requires 8 <= reg <= 15 && 8 <= rs1 <= 15 && imm < 128 && imm & 3 == 0
    ensures var w := CSw(reg, rs1, imm).value;
      IsCompressed(w) && w & 3 == 0 && w != 0 && BitRange(w, 15, 13) == 6 && CReg(BitRange(w, 4, 2)) == reg
      && CReg(BitRange(w, 9, 7)) == rs1 && CLwImm(w) == imm
  {
  }

  lemma DecodeSw(reg: bv32, rs1: bv32, imm: bv32)
    requires imm < 128 && imm & 3 == 0
    ensures CSw(reg, rs1, imm).Success? <==> 8 <= reg <= 15 && 8 <= rs1 <= 15
    ensures CSw(reg, rs1, imm).Success? ==>
            IsCompressed(CSw(reg, rs1, imm).value) && Decode16(CSw(reg, rs1, imm).value) ==
            Success(Store(Sw, reg, rs1, imm))
  {
    hide CSw, BitRange, CReg, CLwImm;
    CompactAccepted(reg, rs1, imm);
    if 8 <= reg <= 15 && 8 <= rs1 <= 15 {
      SwBits(reg, rs1, imm);
    }
  }

  lemma LwspBits(reg: bv32, imm: bv32)
    requires reg < 16 && imm < 256 && imm & 3 == 0
    ensures var w := CLwsp(reg, imm);
      IsCompressed(w) && w & 3 == 2 && BitRange(w, 15, 13) == 2 && BitRange(w, 11, 7) == reg
  {
  }

  lemma LwspImmBits(reg: bv32, imm: bv32)
    requires imm < 256 && imm & 3 == 0
    ensures CLwspImm(CLwsp(reg, imm)) == imm
  {
  }

  lemma SwspBits(reg: bv32, imm: bv32)
    requires reg < 16 && imm < 256 && imm & 3 == 0
    ensures var w := CSwsp(reg, imm);
            IsCompressed(w) && w & 3 == 2 && BitRange(w, 15, 13) == 6 && BitRange(w, 6, 2) == reg && CSwspImm(w) == imm
  {
  }

  lemma DecodeStackAccess(reg: bv32, imm: bv32)
    requires reg < 16 && imm < 256 && imm & 3 == 0
    ensures IsCompressed(CLwsp(reg, imm)) && IsCompressed(CSwsp(reg, imm))
    ensures reg != 0 ==> Decode16(CLwsp(reg, imm)) == Success(Load(Lw, reg, 2, imm))
    ensures Decode16(CSwsp(reg, imm)) == Success(Store(Sw, reg, 2, imm))
  {
    hide CLwsp, CSwsp, BitRange, CLwspImm, CSwspImm;
    LwspBits(reg, imm);
    LwspImmBits(reg, imm);
    SwspBits(reg, imm);
  }

  lemma JumpBits(funct3: bv32, imm: bv32)
    requires funct3 < 8 && Fits(imm, 12) && imm & 1 == 0
    ensures var w := CJ(funct3, imm);
            IsCompressed(w) && w & 3 == 1 && BitRange(w, 15, 13) == funct3 && CJumpImm(w) == imm
  {
  }

  /** C.JAL and C.J: the scrambled 12-bit offset is recovered with its sign. */
  lemma DecodeJump(imm: bv32)
    requires Fits(imm, 12) && imm & 1 == 0
    ensures IsCompressed(CJ(1, imm)) && Decode16(CJ(1, imm)) == Success(Jal(1, imm))
    ensures IsCompressed(CJ(5, imm)) && Decode16(CJ(5, imm)) == Success(Jal(0, imm))
  {
    JumpBits(1, imm);
    JumpBits(5, imm);
    hide CJ, BitRange, CJumpImm;
  }

  lemma BranchBits(funct3: bv32, rs1: bv32, imm: bv32)
    requires funct3 < 8 && 8 <= rs1 <= 15
    ensures var w := CBranch(funct3, rs1, imm).value;
      IsCompressed(w) && w & 3 == 1 && BitRange(w, 15, 13) == funct3 && CReg(BitRange(w, 9, 7)) == rs1
  {
  }

  lemma BranchImmBits(funct3: bv32, rs1: bv32, imm: bv32)
    requires funct3 < 8 && 8 <= rs1 <= 15 && Fits(imm, 9) && imm & 1 == 0
    ensures CBranchImm(CBranch(funct3, rs1, imm).value) == imm
  {
  }

  lemma BranchHalf(c: bv32, onZero: bool)
    requires c & 3 == 1 && BitRange(c, 15, 13) == (if onZero then 6 else 7) && CReg(BitRange(c, 9, 7)) < 16
    ensures Decode16(c) == Success(Branch(if onZero then Eq else Ne, CReg(BitRange(c, 9, 7)), 0, CBranchImm(c)))
  {
    hide BitRange, CReg, CBranchImm, CImm6, CJumpImm, CAddi16spImm, DecodeCAlu;
  }

  lemma DecodeCBranch(rs1: bv32, imm: bv32, onZero: bool)
    requires Fits(imm, 9) && imm & 1 == 0
    ensures var r := CBranch(if onZero then 6 else 7, rs1, imm);
      && (r.Success? <==> 8 <= rs1 <= 15)
      && (r.Success? ==>
          IsCompressed(r.value) && Decode16(r.value) == Success(Branch(if onZero then Eq else Ne, rs1, 0, imm)))
  {
    hide CBranch, BitRange, CReg, CBranchImm, Fits, IsCompressed, Decode16;
    var funct3: bv32 := if onZero then 6 else 7;
    CompactAccepted(rs1, imm, funct3);
    if 8 <= rs1 <= 15 {
      BranchBits(funct3, rs1, imm);
      BranchImmBits(funct3, rs1, imm);
      BranchHalf(CBranch(funct3, rs1, imm).value, onZero);
    }
  }

  lemma CaBits(op: bv32, rd: bv32, rs2: bv32)
    requires op < 4 && 8 <= rd <= 15 && 8 <= rs2 <= 15
    ensures var w := CCa(op, rd, rs2).value;
      IsCompressed(w) && w & 3 == 1 && BitRange(w, 15, 13) == 4 && BitRange(w, 11, 10) == 3 && BitRange(w, 12, 12) == 0
      && BitRange(w, 6, 5) == op && CReg(BitRange(w, 9, 7)) == rd && CReg(BitRange(w, 4, 2)) == rs2
  {
  }

  lemma DecodeCa(op: bv32, rd: bv32, rs2: bv32)
    requires op < 4
    ensures CCa(op, rd, rs2).Success? <==> 8 <= rd <= 15 && 8 <= rs2 <= 15
    ensures CCa(op, rd, rs2).Success? ==>
      IsCompressed(CCa(op, rd, rs2).value) && Decode16(CCa(op, rd, rs2).value)
      == Success(Op(if op == 0 then Sub else if op == 1 then Xor else if op == 2 then Or else And, rd, rd, rs2))
  {
    hide CCa, BitRange, CReg;
    CompactAccepted(rd, rs2, op);
    if 8 <= rd <= 15 && 8 <= rs2 <= 15 {
      CaBits(op, rd, rs2);
    }
  }

  lemma CrBits(bit12: bv32, rd: bv32, rs2: bv32)
    requires bit12 < 2 && rd < 16 && rs2 < 16
    ensures var w := CCr(bit12, rd, rs2);
      IsCompressed(w) && w & 3 == 2 && BitRange(w, 15, 13) == 4 && BitRange(w, 12, 12) == bit12
      && BitRange(w, 11, 7) == rd && BitRange(w, 6, 2) == rs2
  {
  }

  /** C.MV, C.ADD, C.JR, C.JALR and C.EBREAK share one format. */
  lemma DecodeCr(bit12: bv32, rd: bv32, rs2: bv32)
    requires bit12 < 2 && rd < 16 && rs2 < 16
    ensures IsCompressed(CCr(bit12, rd, rs2))
    ensures Decode16(CCr(bit12, rd, rs2)) ==
      if rs2 != 0 then Success(Op(Add, rd, if bit12 == 0 then 0 else rd, rs2))
      else if rd != 0 then Success(Jalr(bit12, rd, 0))
      else if bit12 == 0 then Failure(IllegalInstruction)
      else Success(Ebreak)
  {
    CrBits(bit12, rd, rs2);
    hide CCr, BitRange;
  }
}
