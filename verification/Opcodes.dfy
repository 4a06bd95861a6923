/** The decoder against the instruction listings of chapter 24 of the RISC-V Unprivileged ISA, version
    20191213: which words are which instruction. */
module Opcodes {
  import opened Words
  import opened Isa
  import opened Decoder

  // The fields of a word.

  function Rd(w: bv32): bv32 {
    (w >> 7) & 0x1F
  }

  function Rs1(w: bv32): bv32 {
    (w >> 15) & 0x1F
  }

  function Rs2(w: bv32): bv32 {
    (w >> 20) & 0x1F
  }

  lemma FieldsAre(w: bv32)
    ensures BitRange(w, 11, 7) == Rd(w) && BitRange(w, 19, 15) == Rs1(w) && BitRange(w, 24, 20) == Rs2(w)
  {
  }

  // The immediates of section 2.3: the top bit of the word is the sign of each, and fills it up.

  lemma TwelveNegative(v: bv32)
    requires v & 0x800 != 0
    ensures Sext(v, 12) == v | 0xFFFF_F800
  {
  }

  lemma TwelvePositive(v: bv32)
    requires v & 0x800 == 0
    ensures Sext(v, 12) == v & 0x7FF
  {
  }

  lemma ThirteenNegative(v: bv32)
    requires v & 0x1000 != 0
    ensures Sext(v, 13) == v | 0xFFFF_F000
  {
  }

  lemma ThirteenPositive(v: bv32)
    requires v & 0x1000 == 0
    ensures Sext(v, 13) == v & 0xFFF
  {
  }

  lemma TwentyOneNegative(v: bv32)
    requires v & 0x10_0000 != 0
    ensures Sext(v, 21) == v | 0xFFF0_0000
  {
  }

  lemma TwentyOnePositive(v: bv32)
    requires v & 0x10_0000 == 0
    ensures Sext(v, 21) == v & 0xF_FFFF
  {
  }

  function FieldI(w: bv32): bv32 {
    BitRange(w, 31, 20)
  }

  lemma FieldIIs(w: bv32)
    ensures FieldI(w) == w >> 20
  {
  }

  lemma FieldISign(w: bv32)
    ensures FieldI(w) & 0x800 != 0 <==> w & 0x8000_0000 != 0
  {
    FieldIIs(w);
    hide FieldI;
  }

  lemma ImmIIsField(w: bv32)
    ensures ImmI(w) == Sext(FieldI(w), 12)
  {
    hide Sext, BitRange;
  }

  lemma FilledI(w: bv32)
    ensures w & 0x8000_0000 != 0 ==> FieldI(w) | 0xFFFF_F800 == 0xFFFF_F800 | ((w >> 20) & 0x7FF)
  {
    hide FieldI;
    FieldIIs(w);
  }

  lemma UnfilledI(w: bv32)
    ensures w & 0x8000_0000 == 0 ==> FieldI(w) & 0x7FF == (w >> 20) & 0x7FF
  {
    hide FieldI;
    FieldIIs(w);
  }

  lemma ImmediateI(w: bv32)
    ensures w & 0x8000_0000 != 0 ==> ImmI(w) == 0xFFFF_F800 | ((w >> 20) & 0x7FF)
    ensures w & 0x8000_0000 == 0 ==> ImmI(w) == (w >> 20) & 0x7FF
  {
    hide Sext, FieldI, ImmI, BitRange;
    FieldISign(w);
    ImmIIsField(w);
    if w & 0x8000_0000 != 0 {
      FilledI(w);
      TwelveNegative(FieldI(w));
    } else {
      UnfilledI(w);
      TwelvePositive(FieldI(w));
    }
  }

  function FieldS(w: bv32): bv32 {
    (BitRange(w, 31, 25) << 5) | BitRange(w, 11, 7)
  }

  lemma FieldSIs(w: bv32)
    ensures FieldS(w) == ((w >> 20) & 0xFE0) | ((w >> 7) & 0x1F)
  {
  }

  lemma FieldSSign(w: bv32)
    ensures FieldS(w) & 0x800 != 0 <==> w & 0x8000_0000 != 0
  {
    FieldSIs(w);
    hide FieldS;
  }

  lemma ImmSIsField(w: bv32)
    ensures ImmS(w) == Sext(FieldS(w), 12)
  {
    hide Sext, BitRange;
  }

  lemma FilledS(w: bv32)
    ensures w & 0x8000_0000 != 0 ==> FieldS(w) | 0xFFFF_F800 == 0xFFFF_F800 | ((w >> 20) & 0x7E0) | ((w >> 7) & 0x1F)
  {
    hide FieldS;
    FieldSIs(w);
  }

  lemma UnfilledS(w: bv32)
    ensures w & 0x8000_0000 == 0 ==> FieldS(w) & 0x7FF == ((w >> 20) & 0x7E0) | ((w >> 7) & 0x1F)
  {
    hide FieldS;
    FieldSIs(w);
  }

  lemma ImmediateS(w: bv32)
    ensures w & 0x8000_0000 != 0 ==> ImmS(w) == 0xFFFF_F800 | ((w >> 20) & 0x7E0) | ((w >> 7) & 0x1F)
    ensures w & 0x8000_0000 == 0 ==> ImmS(w) == ((w >> 20) & 0x7E0) | ((w >> 7) & 0x1F)
  {
    hide Sext, FieldS, ImmS, BitRange;
    FieldSSign(w);
    ImmSIsField(w);
    if w & 0x8000_0000 != 0 {
      FilledS(w);
      TwelveNegative(FieldS(w));
    } else {
      UnfilledS(w);
      TwelvePositive(FieldS(w));
    }
  }

  function FieldB(w: bv32): bv32 {
    (BitRange(w, 31, 31) << 12) | (BitRange(w, 7, 7) << 11) | (BitRange(w, 30, 25) << 5) | (BitRange(w, 11, 8) << 1)
  }

  lemma FieldBIs(w: bv32)
    ensures FieldB(w) == ((w >> 19) & 0x1000) | ((w << 4) & 0x800) | ((w >> 20) & 0x7E0) | ((w >> 7) & 0x1E)
  {
  }

  lemma FieldBSign(w: bv32)
    ensures FieldB(w) & 0x1000 != 0 <==> w & 0x8000_0000 != 0
  {
    FieldBIs(w);
    hide FieldB;
  }

  lemma ImmBIsField(w: bv32)
    ensures ImmB(w) == Sext(FieldB(w), 13)
  {
    hide Sext, BitRange;
  }

  lemma FilledB(w: bv32)
    ensures w & 0x8000_0000 != 0 ==>
            FieldB(w) | 0xFFFF_F000 == 0xFFFF_F000 | ((w << 4) & 0x800) | ((w >> 20) & 0x7E0) | ((w >> 7) & 0x1E)
  {
    hide FieldB;
    FieldBIs(w);
  }

  lemma UnfilledB(w: bv32)
    ensures w & 0x8000_0000 == 0 ==> FieldB(w) & 0xFFF == ((w << 4) & 0x800) | ((w >> 20) & 0x7E0) | ((w >> 7) & 0x1E)
  {
    hide FieldB;
    FieldBIs(w);
  }

  lemma ImmediateB(w: bv32)
    ensures w & 0x8000_0000 != 0 ==>
            ImmB(w) == 0xFFFF_F000 | ((w << 4) & 0x800) | ((w >> 20) & 0x7E0) | ((w >> 7) & 0x1E)
    ensures w & 0x8000_0000 == 0 ==> ImmB(w) == ((w << 4) & 0x800) | ((w >> 20) & 0x7E0) | ((w >> 7) & 0x1E)
  {
    hide Sext, FieldB, ImmB, BitRange;
    FieldBSign(w);
    ImmBIsField(w);
    if w & 0x8000_0000 != 0 {
      FilledB(w);
      ThirteenNegative(FieldB(w));
    } else {
      UnfilledB(w);
      ThirteenPositive(FieldB(w));
    }
  }

  lemma ImmediateU(w: bv32)
    ensures ImmU(w) == (w >> 12) << 12
  {
  }

  function FieldJ(w: bv32): bv32 {
    (BitRange(w, 31, 31) << 20) | (BitRange(w, 19, 12) << 12) | (BitRange(w, 20, 20) << 11) | (BitRange(w, 30, 21) << 1)
  }

  lemma FieldJIs(w: bv32)
    ensures FieldJ(w) == ((w >> 11) & 0x10_0000) | (w & 0xF_F000) | ((w >> 9) & 0x800) | ((w >> 20) & 0x7FE)
  {
  }

  lemma FieldJSign(w: bv32)
    ensures FieldJ(w) & 0x10_0000 != 0 <==> w & 0x8000_0000 != 0
  {
    FieldJIs(w);
    hide FieldJ;
  }

  lemma ImmJIsField(w: bv32)
    ensures ImmJ(w) == Sext(FieldJ(w), 21)
  {
    hide Sext, BitRange;
  }

  lemma FilledJ(w: bv32)
    ensures w & 0x8000_0000 != 0 ==>
            FieldJ(w) | 0xFFF0_0000 == 0xFFF0_0000 | (w & 0xF_F000) | ((w >> 9) & 0x800) | ((w >> 20) & 0x7FE)
  {
    hide FieldJ;
    FieldJIs(w);
  }

  lemma UnfilledJ(w: bv32)
    ensures w & 0x8000_0000 == 0 ==> FieldJ(w) & 0xF_FFFF == (w & 0xF_F000) | ((w >> 9) & 0x800) | ((w >> 20) & 0x7FE)
  {
    hide FieldJ;
    FieldJIs(w);
  }

  lemma ImmediateJ(w: bv32)
    ensures w & 0x8000_0000 != 0 ==> ImmJ(w) == 0xFFF0_0000 | (w & 0xF_F000) | ((w >> 9) & 0x800) | ((w >> 20) & 0x7FE)
    ensures w & 0x8000_0000 == 0 ==> ImmJ(w) == (w & 0xF_F000) | ((w >> 9) & 0x800) | ((w >> 20) & 0x7FE)
  {
    hide Sext, FieldJ, ImmJ, BitRange;
    FieldJSign(w);
    ImmJIsField(w);
    if w & 0x8000_0000 != 0 {
      FilledJ(w);
      TwentyOneNegative(FieldJ(w));
    } else {
      UnfilledJ(w);
      TwentyOnePositive(FieldJ(w));
    }
  }

  /** Opcode and function code. */
  predicate Has(w: bv32, funct3: bv32, opcode: bv32) {
    w & 0x0000_707F == (funct3 << 12) | opcode
  }

  /** Opcode and both function codes. */
  predicate HasBoth(w: bv32, funct7: bv32, funct3: bv32, opcode: bv32) {
    w & 0xFE00_707F == (funct7 << 25) | (funct3 << 12) | opcode
  }

  lemma HasFields(w: bv32, funct3: bv32, opcode: bv32)
    requires Has(w, funct3, opcode) && funct3 < 8 && opcode < 0x80
    ensures w & 0x7F == opcode && BitRange(w, 14, 12) == funct3
  {
  }

  lemma HasBothFields(w: bv32, funct7: bv32, funct3: bv32, opcode: bv32)
    requires HasBoth(w, funct7, funct3, opcode) && funct7 < 0x80 && funct3 < 8 && opcode < 0x80
    ensures w & 0x7F == opcode && BitRange(w, 14, 12) == funct3 && BitRange(w, 31, 25) == funct7
  {
  }

  /** The function codes of the register operations. */
  function Listed(op: AluOp): (bv32, bv32) {
    match op
    case Add => (0x00, 0)
    case Sub => (0x20, 0)
    case Sll => (0x00, 1)
    case Slt => (0x00, 2)
    case Sltu => (0x00, 3)
    case Xor => (0x00, 4)
    case Srl => (0x00, 5)
    case Sra => (0x20, 5)
    case Or => (0x00, 6)
    case And => (0x00, 7)
  }

  lemma RegisterWords(w: bv32, op: AluOp)
    requires HasBoth(w, Listed(op).0, Listed(op).1, 0x33)
    ensures Decode32(w) == if Rd(w) < 16 && Rs1(w) < 16 && Rs2(w) < 16 then Success(Op(op, Rd(w), Rs1(w), Rs2(w)))
                           else Failure(Rv32eRegister)
  {
    hide BitRange, Rd, Rs1, Rs2, HasBoth, Listed, OpOf, Decode32;
    RegisterCodes(op);
    FieldsAre(w);
    HasBothFields(w, Listed(op).0, Listed(op).1, 0x33);
    RegisterDecoded(w);
  }

  lemma RegisterCodes(op: AluOp)
    ensures OpOf(Listed(op).1, Listed(op).0) == Some(op) && Listed(op).0 < 0x80 && Listed(op).1 < 8
  {
  }

  lemma RegisterDecoded(w: bv32)
    requires w & 0x7F == 0x33
    ensures Decode32(w) ==
            var rd, rs1, rs2 := BitRange(w, 11, 7), BitRange(w, 19, 15), BitRange(w, 24, 20);
            if rd < 16 && rs1 < 16 && rs2 < 16 then
              match OpOf(BitRange(w, 14, 12), BitRange(w, 31, 25))
              case None => Failure(IllegalInstruction)
              case Some(op) => Success(Op(op, rd, rs1, rs2))
            else Failure(Rv32eRegister)
  {
    hide BitRange, OpOf;
  }

  lemma ShiftWords(w: bv32, op: AluOp)
    requires (op == Sll || op == Srl || op == Sra) && HasBoth(w, Listed(op).0, Listed(op).1, 0x13)
    ensures Decode32(w) == if Rd(w) < 16 && Rs1(w) < 16 then Success(OpImm(op, Rd(w), Rs1(w), Rs2(w)))
                           else Failure(Rv32eRegister)
  {
    FieldsAre(w);
    HasBothFields(w, Listed(op).0, Listed(op).1, 0x13);
    hide BitRange, Rd, Rs1, Rs2, HasBoth;
  }

  lemma ImmediateWords(w: bv32, op: AluOp)
    requires op !in {Sub, Sll, Srl, Sra} && Has(w, Listed(op).1, 0x13)
    ensures Decode32(w) == if Rd(w) < 16 && Rs1(w) < 16 then Success(OpImm(op, Rd(w), Rs1(w), ImmI(w)))
                           else Failure(Rv32eRegister)
  {
    FieldsAre(w);
    HasFields(w, Listed(op).1, 0x13);
    hide BitRange, Rd, Rs1, Rs2, Has, ImmI;
  }

  function ListedBranch(op: BranchOp): bv32 {
    match op
    case Eq => 0
    case Ne => 1
    case Lt => 4
    case Ge => 5
    case Ltu => 6
    case Geu => 7
  }

  lemma BranchWords(w: bv32, op: BranchOp)
    requires Has(w, ListedBranch(op), 0x63)
    ensures Decode32(w) == if Rs1(w) < 16 && Rs2(w) < 16 then Success(Branch(op, Rs1(w), Rs2(w), ImmB(w)))
                           else Failure(Rv32eRegister)
  {
    FieldsAre(w);
    HasFields(w, ListedBranch(op), 0x63);
    hide BitRange, Rd, Rs1, Rs2, Has, ImmB;
  }

  function ListedLoad(op: LoadOp): bv32 {
    match op
    case Lb => 0
    case Lh => 1
    case Lw => 2
    case Lbu => 4
    case Lhu => 5
  }

  lemma LoadWords(w: bv32, op: LoadOp)
    requires Has(w, ListedLoad(op), 0x03)
    ensures Decode32(w) == if Rd(w) < 16 && Rs1(w) < 16 then Success(Load(op, Rd(w), Rs1(w), ImmI(w)))
                           else Failure(Rv32eRegister)
  {
    FieldsAre(w);
    HasFields(w, ListedLoad(op), 0x03);
    hide BitRange, Rd, Rs1, Rs2, Has, ImmI;
  }

  function ListedStore(op: StoreOp): bv32 {
    match op
    case Sb => 0
    case Sh => 1
    case Sw => 2
  }

  lemma StoreWords(w: bv32, op: StoreOp)
    requires Has(w, ListedStore(op), 0x23)
    ensures Decode32(w) == if Rs1(w) < 16 && Rs2(w) < 16 then Success(Store(op, Rs2(w), Rs1(w), ImmS(w)))
                           else Failure(Rv32eRegister)
  {
    FieldsAre(w);
    HasFields(w, ListedStore(op), 0x23);
    hide BitRange, Rd, Rs1, Rs2, Has, ImmS;
  }

  lemma UpperWords(w: bv32)
    ensures w & 0x7F == 0x37 ==>
            Decode32(w) == if Rd(w) < 16 then Success(Lui(Rd(w), w & 0xFFFF_F000)) else Failure(Rv32eRegister)
    ensures w & 0x7F == 0x17 ==>
            Decode32(w) == if Rd(w) < 16 then Success(Auipc(Rd(w), w & 0xFFFF_F000)) else Failure(Rv32eRegister)
  {
    FieldsAre(w);
    hide BitRange, Rd, Rs1, Rs2;
  }

  lemma JumpWords(w: bv32)
    ensures w & 0x7F == 0x6F ==>
            Decode32(w) == if Rd(w) < 16 then Success(Jal(Rd(w), ImmJ(w))) else Failure(Rv32eRegister)
    ensures Has(w, 0, 0x67) ==>
            Decode32(w) == if Rd(w) < 16 && Rs1(w) < 16 then Success(Jalr(Rd(w), Rs1(w), ImmI(w)))
                           else Failure(Rv32eRegister)
  {
    FieldsAre(w);
    if Has(w, 0, 0x67) {
      HasFields(w, 0, 0x67);
    }
    hide BitRange, Rd, Rs1, Rs2, Has, ImmI, ImmJ;
  }

  function ListedCsr(op: CsrOp, immediate: bool): bv32 {
    match op
    case ReadWrite => if immediate then 5 else 1
    case ReadSet => if immediate then 6 else 2
    case ReadClear => if immediate then 7 else 3
  }

  lemma CsrCode(op: CsrOp, immediate: bool)
    ensures CsrOpOf(ListedCsr(op, immediate)) == Some(op) && (ListedCsr(op, immediate) & 4 != 0) == immediate
  {
  }

  lemma CsrField(w: bv32)
    ensures BitRange(w, 31, 20) == w >> 20
  {
  }

  lemma NoSystemWord(w: bv32, funct3: bv32)
    requires Has(w, funct3, 0x73) && 0 < funct3 < 8
    ensures w !in {0x0000_0073, 0x0010_0073, 0x1050_0073, 0x3020_0073}
  {
  }

  lemma CsrWords(w: bv32, op: CsrOp, immediate: bool)
    requires Has(w, ListedCsr(op, immediate), 0x73)
    ensures Decode32(w) == Success(Csr(op, immediate, Rd(w), Rs1(w), w >> 20))
  {
    hide BitRange, Rd, Rs1, Rs2, Has, CsrOpOf;
    FieldsAre(w);
    CsrField(w);
    CsrCode(op, immediate);
    HasFields(w, ListedCsr(op, immediate), 0x73);
    NoSystemWord(w, ListedCsr(op, immediate));
  }

  lemma SystemWords()
    ensures Decode32(0x0000_0073) == Success(Ecall) && Decode32(0x0010_0073) == Success(Ebreak)
    ensures Decode32(0x1050_0073) == Success(Wfi) && Decode32(0x3020_0073) == Success(Mret)
  {
  }

  lemma FenceWords(w: bv32)
    requires Has(w, 0, 0x0F)
    ensures Decode32(w) == Success(Fence)
  {
    hide BitRange, Has;
    HasFields(w, 0, 0x0F);
  }

  // ---------------------------------------------------------------- refused words

  /** Unused opcodes, and function codes of used ones that are not listed. A register above x15 is found
      first, but for JALR, FENCE and the system instructions. */
  lemma UnusedOpcodes(w: bv32)
    requires w & 0x7F !in {0x37, 0x17, 0x6F, 0x67, 0x63, 0x03, 0x23, 0x13, 0x33, 0x0F, 0x73}
    ensures Decode32(w) == Failure(IllegalInstruction)
  {
  }

  lemma UnusedFunctions(w: bv32, funct3: bv32)
    requires funct3 < 8
    ensures funct3 in {2, 3} && Has(w, funct3, 0x63) ==>
            Decode32(w) == Failure(if Rs1(w) < 16 && Rs2(w) < 16 then IllegalInstruction else Rv32eRegister)
    ensures funct3 in {3, 6, 7} && Has(w, funct3, 0x03) ==>
            Decode32(w) == Failure(if Rd(w) < 16 && Rs1(w) < 16 then IllegalInstruction else Rv32eRegister)
    ensures funct3 > 2 && Has(w, funct3, 0x23) ==>
            Decode32(w) == Failure(if Rs1(w) < 16 && Rs2(w) < 16 then IllegalInstruction else Rv32eRegister)
    ensures funct3 != 0 && (Has(w, funct3, 0x67) || Has(w, funct3, 0x0F)) ==> Decode32(w) == Failure(IllegalInstruction)
    ensures funct3 == 4 && Has(w, funct3, 0x73) ==> Decode32(w) == Failure(IllegalInstruction)
  {
    FieldsAre(w);
    if Has(w, funct3, 0x63) {
      HasFields(w, funct3, 0x63);
    } else if Has(w, funct3, 0x03) {
      HasFields(w, funct3, 0x03);
    } else if Has(w, funct3, 0x23) {
      HasFields(w, funct3, 0x23);
    } else if Has(w, funct3, 0x67) {
      HasFields(w, funct3, 0x67);
    } else if Has(w, funct3, 0x0F) {
      HasFields(w, funct3, 0x0F);
    } else if Has(w, funct3, 0x73) && funct3 == 4 {
      HasFields(w, funct3, 0x73);
      NoSystemWord(w, funct3);
    }
    hide BitRange, Rd, Rs1, Rs2, Has, ImmI, ImmS, ImmB;
  }

  lemma UnusedSystemWords(w: bv32)
    requires Has(w, 0, 0x73) && w !in {0x0000_0073, 0x0010_0073, 0x1050_0073, 0x3020_0073}
    ensures Decode32(w) == Failure(IllegalInstruction)
  {
    HasFields(w, 0, 0x73);
    hide BitRange, Has;
  }

  lemma UnusedCodes(w: bv32, funct7: bv32, funct3: bv32)
    requires funct7 < 0x80 && funct3 < 8
    ensures HasBoth(w, funct7, funct3, 0x33) && (forall op :: Listed(op) != (funct7, funct3)) ==>
            Decode32(w) == Failure(if Rd(w) < 16 && Rs1(w) < 16 && Rs2(w) < 16 then IllegalInstruction
                else Rv32eRegister)
    ensures HasBoth(w, funct7, funct3, 0x13) && funct3 in {1, 5} && (forall op :: Listed(op) != (funct7, funct3)) ==>
            Decode32(w) == Failure(if Rd(w) < 16 && Rs1(w) < 16 then IllegalInstruction else Rv32eRegister)
  {
    FieldsAre(w);
    assert Listed(Add) == (0, 0) && Listed(Sub) == (0x20, 0) && Listed(Sll) == (0, 1) && Listed(Slt) == (0, 2);
    assert Listed(Sltu) == (0, 3) && Listed(Xor) == (0, 4) && Listed(Srl) == (0, 5) && Listed(Sra) == (0x20, 5);
    assert Listed(Or) == (0, 6) && Listed(And) == (0, 7);
    if HasBoth(w, funct7, funct3, 0x33) {
      HasBothFields(w, funct7, funct3, 0x33);
    } else if HasBoth(w, funct7, funct3, 0x13) {
      HasBothFields(w, funct7, funct3, 0x13);
    }
    hide BitRange, Rd, Rs1, Rs2, HasBoth, ImmI, Listed;
  }
}
