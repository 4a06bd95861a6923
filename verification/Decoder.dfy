/** From instruction bits to abstract syntax, with the trap each illegal word raises. */
module Decoder {
  import opened Words
  import opened Isa

  type Decoded = Result<Instr, Cause>

  /** The decoder's check that an instruction names only x0..x15. */
  function Checked(i: Instr): (d: Decoded)
    ensures d.Success? ==> Operands(d.value)
  {
    if Operands(i) then Success(i) else Failure(Rv32eRegister)
  }

  // ---------------------------------------------------------------- 32-bit instructions

  function ImmI(insn: bv32): bv32 {
    Sext(BitRange(insn, 31, 20), 12)
  }

  function ImmS(insn: bv32): bv32 {
    Sext((BitRange(insn, 31, 25) << 5) | BitRange(insn, 11, 7), 12)
  }

  function ImmB(insn: bv32): bv32 {
    Sext((BitRange(insn, 31, 31) << 12) | (BitRange(insn, 7, 7) << 11)
         | (BitRange(insn, 30, 25) << 5) | (BitRange(insn, 11, 8) << 1), 13)
  }

  function ImmU(insn: bv32): bv32 {
    insn & 0xFFFF_F000
  }

  function ImmJ(insn: bv32): bv32 {
    Sext((BitRange(insn, 31, 31) << 20) | (BitRange(insn, 19, 12) << 12)
         | (BitRange(insn, 20, 20) << 11) | (BitRange(insn, 30, 21) << 1), 21)
  }

  function BranchOpOf(funct3: bv32): Option<BranchOp> {
    if funct3 == 0 then Some(Eq)
    else if funct3 == 1 then Some(Ne)
    else if funct3 == 4 then Some(Lt)
    else if funct3 == 5 then Some(Ge)
    else if funct3 == 6 then Some(Ltu)
    else if funct3 == 7 then Some(Geu)
    else None
  }

  function LoadOpOf(funct3: bv32): Option<LoadOp> {
    if funct3 == 0 then Some(Lb)
    else if funct3 == 1 then Some(Lh)
    else if funct3 == 2 then Some(Lw)
    else if funct3 == 4 then Some(Lbu)
    else if funct3 == 5 then Some(Lhu)
    else None
  }

  function StoreOpOf(funct3: bv32): Option<StoreOp> {
    if funct3 == 0 then Some(Sb)
    else if funct3 == 1 then Some(Sh)
    else if funct3 == 2 then Some(Sw)
    else None
  }

  /** Operation and operand of an OP-IMM instruction; a shift amount is 5 bits. */
  function OpImmOf(funct3: bv32, funct7: bv32): Option<AluOp> {
    if funct3 == 0 then Some(Add)
    else if funct3 == 2 then Some(Slt)
    else if funct3 == 3 then Some(Sltu)
    else if funct3 == 4 then Some(Xor)
    else if funct3 == 6 then Some(Or)
    else if funct3 == 7 then Some(And)
    else if funct3 == 1 && funct7 == 0 then Some(Sll)
    else if funct3 == 5 && funct7 == 0 then Some(Srl)
    else if funct3 == 5 && funct7 == 0x20 then Some(Sra)
    else None
  }

  predicate IsShift(op: AluOp) {
    op == Sll || op == Srl || op == Sra
  }

  function OpOf(funct3: bv32, funct7: bv32): Option<AluOp> {
    if funct7 == 0x20 then
      if funct3 == 0 then Some(Sub) else if funct3 == 5 then Some(Sra) else None
    else if funct7 != 0 then None
    else if funct3 == 0 then Some(Add)
    else if funct3 == 1 then Some(Sll)
    else if funct3 == 2 then Some(Slt)
    else if funct3 == 3 then Some(Sltu)
    else if funct3 == 4 then Some(Xor)
    else if funct3 == 5 then Some(Srl)
    else if funct3 == 6 then Some(Or)
    else if funct3 == 7 then Some(And)
    else None
  }

  function CsrOpOf(funct3: bv32): Option<CsrOp> {
    if funct3 & 3 == 1 then Some(ReadWrite)
    else if funct3 & 3 == 2 then Some(ReadSet)
    else if funct3 & 3 == 3 then Some(ReadClear)
    else None
  }

  /** The first illegality found decides the trap: registers are checked before the
      function code, except for JALR. */
  function Decode32(insn: bv32): (d: Decoded)
    ensures d.Success? ==> Operands(d.value)
  {
    var opcode := insn & 0x7F;
    var rd := BitRange(insn, 11, 7);
    var funct3 := BitRange(insn, 14, 12);
    var rs1 := BitRange(insn, 19, 15);
    var rs2 := BitRange(insn, 24, 20);
    var funct7 := BitRange(insn, 31, 25);
    if opcode == 0x37 then Checked(Lui(rd, ImmU(insn)))
    else if opcode == 0x17 then Checked(Auipc(rd, ImmU(insn)))
    else if opcode == 0x6F then Checked(Jal(rd, ImmJ(insn)))
    else if opcode == 0x67 then
      if funct3 != 0 then Failure(IllegalInstruction) else Checked(Jalr(rd, rs1, ImmI(insn)))
    else if opcode == 0x63 then
      if rs1 >= 16 || rs2 >= 16 then Failure(Rv32eRegister)
      else match BranchOpOf(funct3)
        case None => Failure(IllegalInstruction)
        case Some(op) => Success(Branch(op, rs1, rs2, ImmB(insn)))
    else if opcode == 0x03 then
      if rd >= 16 || rs1 >= 16 then Failure(Rv32eRegister)
      else match LoadOpOf(funct3)
        case None => Failure(IllegalInstruction)
        case Some(op) => Success(Load(op, rd, rs1, ImmI(insn)))
    else if opcode == 0x23 then
      if rs1 >= 16 || rs2 >= 16 then Failure(Rv32eRegister)
      else match StoreOpOf(funct3)
        case None => Failure(IllegalInstruction)
        case Some(op) => Success(Store(op, rs2, rs1, ImmS(insn)))
    else if opcode == 0x13 then
      if rd >= 16 || rs1 >= 16 then Failure(Rv32eRegister)
      else match OpImmOf(funct3, funct7)
        case None => Failure(IllegalInstruction)
        case Some(op) => Success(OpImm(op, rd, rs1, if IsShift(op) then rs2 else ImmI(insn)))
    else if opcode == 0x33 then
      if rd >= 16 || rs1 >= 16 || rs2 >= 16 then Failure(Rv32eRegister)
      else match OpOf(funct3, funct7)
        case None => Failure(IllegalInstruction)
        case Some(op) => Success(Op(op, rd, rs1, rs2))
    else if opcode == 0x0F then
      if funct3 != 0 then Failure(IllegalInstruction) else Success(Fence)
    else if opcode == 0x73 then DecodeSystem(insn)
    else Failure(IllegalInstruction)
  }

  /** A Zicsr instruction keeps its register fields unchecked: they are checked as it executes. */
  function DecodeSystem(insn: bv32): (d: Decoded)
    ensures d.Success? ==> Operands(d.value)
  {
    var funct3 := BitRange(insn, 14, 12);
    if insn == 0x0000_0073 then Success(Ecall)
    else if insn == 0x0010_0073 then Success(Ebreak)
    else if insn == 0x1050_0073 then Success(Wfi)
    else if insn == 0x3020_0073 then Success(Mret)
    else match CsrOpOf(funct3)
      case None => Failure(IllegalInstruction)
      case Some(op) =>
        Success(Csr(op, funct3 & 4 != 0, BitRange(insn, 11, 7), BitRange(insn, 19, 15), BitRange(insn, 31, 20)))
  }

  // ---------------------------------------------------------------- 16-bit instructions

  function CReg(field: bv32): bv32 {
    8 + field
  }

  function CImm6(insn: bv32): bv32 {
    Sext((BitRange(insn, 12, 12) << 5) | BitRange(insn, 6, 2), 6)
  }

  function CAddi4spnImm(insn: bv32): bv32 {
    (BitRange(insn, 12, 11) << 4) | (BitRange(insn, 10, 7) << 6)
    | (BitRange(insn, 6, 6) << 2) | (BitRange(insn, 5, 5) << 3)
  }

  function CLwImm(insn: bv32): bv32 {
    (BitRange(insn, 5, 5) << 6) | (BitRange(insn, 12, 10) << 3) | (BitRange(insn, 6, 6) << 2)
  }

  function CLwspImm(insn: bv32): bv32 {
    (BitRange(insn, 3, 2) << 6) | (BitRange(insn, 12, 12) << 5) | (BitRange(insn, 6, 4) << 2)
  }

  function CSwspImm(insn: bv32): bv32 {
    (BitRange(insn, 8, 7) << 6) | (BitRange(insn, 12, 9) << 2)
  }

  function CAddi16spImm(insn: bv32): bv32 {
    Sext((BitRange(insn, 12, 12) << 9) | (BitRange(insn, 4, 3) << 7) | (BitRange(insn, 5, 5) << 6)
         | (BitRange(insn, 2, 2) << 5) | (BitRange(insn, 6, 6) << 4), 10)
  }

  function CBranchImm(insn: bv32): bv32 {
    Sext((BitRange(insn, 12, 12) << 8) | (BitRange(insn, 6, 5) << 6) | (BitRange(insn, 11, 10) << 3)
         | (BitRange(insn, 4, 3) << 1) | (BitRange(insn, 2, 2) << 5), 9)
  }

  function CJumpImm(insn: bv32): bv32 {
    Sext((BitRange(insn, 12, 12) << 11) | (BitRange(insn, 11, 11) << 4) | (BitRange(insn, 10, 9) << 8)
         | (BitRange(insn, 8, 8) << 10) | (BitRange(insn, 7, 7) << 6) | (BitRange(insn, 6, 6) << 7)
         | (BitRange(insn, 5, 3) << 1) | (BitRange(insn, 2, 2) << 5), 12)
  }

  /** The low bits tell a 16-bit instruction from a 32-bit one. */
  predicate IsCompressed(c: bv32) {
    c < 0x1_0000 && c & 3 != 3
  }

  /** A 16-bit instruction decodes to the instruction it abbreviates. */
  function Decode16(insn: bv32): (d: Decoded)
    ensures d.Success? ==> Operands(d.value)
  {
    var quadrant := insn & 3;
    if insn == 0 then Failure(IllegalInstruction)
    else if quadrant == 0 then DecodeQuadrant0(insn)
    else if quadrant == 1 then DecodeQuadrant1(insn)
    else if quadrant == 2 then DecodeQuadrant2(insn)
    else Failure(IllegalInstruction)
  }

  function DecodeQuadrant0(insn: bv32): (d: Decoded)
    ensures d.Success? ==> Operands(d.value)
  {
    var funct3 := BitRange(insn, 15, 13);
    var rdPrime := CReg(BitRange(insn, 4, 2));
    var rs1Prime := CReg(BitRange(insn, 9, 7));
    if funct3 == 0 then
      var imm := CAddi4spnImm(insn);
      if imm == 0 then Failure(IllegalInstruction) else Checked(OpImm(Add, rdPrime, 2, imm))
    else if funct3 == 2 then Checked(Load(Lw, rdPrime, rs1Prime, CLwImm(insn)))
    else if funct3 == 6 then Checked(Store(Sw, rdPrime, rs1Prime, CLwImm(insn)))
    else if funct3 & 1 == 1 then Failure(UnsupportedExtension)
    else Failure(IllegalInstruction)
  }

  function DecodeQuadrant1(insn: bv32): (d: Decoded)
    ensures d.Success? ==> Operands(d.value)
  {
    var funct3 := BitRange(insn, 15, 13);
    var rd := BitRange(insn, 11, 7);
    var rs1Prime := CReg(BitRange(insn, 9, 7));
    if funct3 == 0 then Checked(OpImm(Add, rd, rd, CImm6(insn)))
    else if funct3 == 1 then Success(Jal(1, CJumpImm(insn)))
    else if funct3 == 2 then Checked(OpImm(Add, rd, 0, CImm6(insn)))
    else if funct3 == 3 then
      if rd >= 16 then Failure(Rv32eRegister)
      else if rd == 2 then
        var imm := CAddi16spImm(insn);
        if imm == 0 then Failure(IllegalInstruction) else Success(OpImm(Add, 2, 2, imm))
      else if CImm6(insn) == 0 then Failure(IllegalInstruction)
      else Success(Lui(rd, CImm6(insn) << 12))
    else if funct3 == 4 then DecodeCAlu(insn)
    else if funct3 == 5 then Success(Jal(0, CJumpImm(insn)))
    else if funct3 == 6 then Checked(Branch(Eq, rs1Prime, 0, CBranchImm(insn)))
    else Checked(Branch(Ne, rs1Prime, 0, CBranchImm(insn)))
  }

  function DecodeCAlu(insn: bv32): (d: Decoded)
    ensures d.Success? ==> Operands(d.value)
  {
    var subop := BitRange(insn, 11, 10);
    var rd := CReg(BitRange(insn, 9, 7));
    var rs2 := CReg(BitRange(insn, 4, 2));
    if subop == 2 then Checked(OpImm(And, rd, rd, CImm6(insn)))
    else if BitRange(insn, 12, 12) != 0 then Failure(UnsupportedExtension)
    else if subop == 0 then Checked(OpImm(Srl, rd, rd, BitRange(insn, 6, 2)))
    else if subop == 1 then Checked(OpImm(Sra, rd, rd, BitRange(insn, 6, 2)))
    else
      var caOp := BitRange(insn, 6, 5);
      var op := if caOp == 0 then Sub else if caOp == 1 then Xor else if caOp == 2 then Or else And;
      Checked(Op(op, rd, rd, rs2))
  }

  function DecodeQuadrant2(insn: bv32): (d: Decoded)
    ensures d.Success? ==> Operands(d.value)
  {
    var funct3 := BitRange(insn, 15, 13);
    var rd := BitRange(insn, 11, 7);
    var rs2 := BitRange(insn, 6, 2);
    if funct3 == 0 then
      if BitRange(insn, 12, 12) != 0 then Failure(UnsupportedExtension)
      else Checked(OpImm(Sll, rd, rd, rs2))
    else if funct3 == 2 then
      if rd == 0 then Failure(IllegalInstruction) else Checked(Load(Lw, rd, 2, CLwspImm(insn)))
    else if funct3 == 4 then
      if rd >= 16 || rs2 >= 16 then Failure(Rv32eRegister)
      else if BitRange(insn, 12, 12) == 0 then
        if rs2 != 0 then Success(Op(Add, rd, 0, rs2))
        else if rd == 0 then Failure(IllegalInstruction)
        else Success(Jalr(0, rd, 0))
      else if rs2 != 0 then Success(Op(Add, rd, rd, rs2))
      else if rd == 0 then Success(Ebreak)
      else Success(Jalr(1, rd, 0))
    else if funct3 == 6 then Checked(Store(Sw, rs2, 2, CSwspImm(insn)))
    else if funct3 & 1 == 1 then Failure(UnsupportedExtension)
    else Failure(IllegalInstruction)
  }
}
