/** The assembler's bit packers, and their agreement with the decoder: what is
    assembled is decoded back, and a legal word is rebuilt from what it decodes to. */
module Encoder {
  import opened Words
  import opened Isa
  import opened Decoder

  // ---------------------------------------------------------------- 32-bit formats

  function RType(funct7: bv32, rs2: bv32, rs1: bv32, funct3: bv32, rd: bv32, opcode: bv32): bv32 {
    ((funct7 & 0x7F) << 25) | ((rs2 & 0x1F) << 20) | ((rs1 & 0x1F) << 15)
    | ((funct3 & 0x7) << 12) | ((rd & 0x1F) << 7) | opcode
  }

  function IType(imm: bv32, rs1: bv32, funct3: bv32, rd: bv32, opcode: bv32): bv32 {
    ((imm & 0xFFF) << 20) | ((rs1 & 0x1F) << 15) | ((funct3 & 0x7) << 12) | ((rd & 0x1F) << 7) | opcode
  }

  function CsrType(csr: bv32, rs1: bv32, funct3: bv32, rd: bv32): bv32 {
    ((csr & 0xFFF) << 20) | ((rs1 & 0x1F) << 15) | ((funct3 & 0x7) << 12) | ((rd & 0x1F) << 7) | 0x73
  }

  function SType(imm: bv32, rs2: bv32, rs1: bv32, funct3: bv32, opcode: bv32): bv32 {
    (((imm >> 5) & 0x7F) << 25) | ((rs2 & 0x1F) << 20) | ((rs1 & 0x1F) << 15)
    | ((funct3 & 0x7) << 12) | ((imm & 0x1F) << 7) | opcode
  }

  function BType(imm: bv32, rs2: bv32, rs1: bv32, funct3: bv32, opcode: bv32): bv32 {
    (((imm >> 12) & 0x1) << 31) | (((imm >> 5) & 0x3F) << 25) | ((rs2 & 0x1F) << 20) | ((rs1 & 0x1F) << 15)
    | ((funct3 & 0x7) << 12) | (((imm >> 1) & 0xF) << 8) | (((imm >> 11) & 0x1) << 7) | opcode
  }

  function UType(imm: bv32, rd: bv32, opcode: bv32): bv32 {
    (imm & 0xFFFF_F000) | ((rd & 0x1F) << 7) | opcode
  }

  function JType(imm: bv32, rd: bv32, opcode: bv32): bv32 {
    (((imm >> 20) & 0x1) << 31) | (((imm >> 1) & 0x3FF) << 21) | (((imm >> 11) & 0x1) << 20)
    | (((imm >> 12) & 0xFF) << 12) | ((rd & 0x1F) << 7) | opcode
  }

  // ---------------------------------------------------------------- abstract syntax to 32-bit words

  function Funct3OfBranch(op: BranchOp): bv32 {
    match op
    case Eq => 0
    case Ne => 1
    case Lt => 4
    case Ge => 5
    case Ltu => 6
    case Geu => 7
  }

  function Funct3OfLoad(op: LoadOp): bv32 {
    match op
    case Lb => 0
    case Lh => 1
    case Lw => 2
    case Lbu => 4
    case Lhu => 5
  }

  function Funct3OfStore(op: StoreOp): bv32 {
    match op
    case Sb => 0
    case Sh => 1
    case Sw => 2
  }

  function Funct3OfAlu(op: AluOp): bv32 {
    match op
    case Add | Sub => 0
    case Sll => 1
    case Slt => 2
    case Sltu => 3
    case Xor => 4
    case Srl | Sra => 5
    case Or => 6
    case And => 7
  }

  function Funct7OfAlu(op: AluOp): bv32 {
    if op == Sub || op == Sra then 0x20 else 0
  }

  function Funct3OfCsr(op: CsrOp, immediate: bool): bv32 {
    (match op case ReadWrite => 1 case ReadSet => 2 case ReadClear => 3) | (if immediate then 4 else 0)
  }

  /** value is a two's complement number of the given width. */
  predicate Fits(value: bv32, bits: bv32)
    requires 0 < bits <= 32
  {
    Sext(value, bits) == value
  }

  /** The fields of i are in the ranges its 32-bit format can hold. */
  predicate WellRanged(i: Instr) {
    && Operands(i)
    && match i
       case Lui(_, imm) => imm & 0xFFF == 0
       case Auipc(_, imm) => imm & 0xFFF == 0
       case Jal(_, offset) => offset & 1 == 0 && Fits(offset, 21)
       case Jalr(_, _, imm) => Fits(imm, 12)
       case Branch(_, _, _, offset) => offset & 1 == 0 && Fits(offset, 13)
       case Load(_, _, _, imm) => Fits(imm, 12)
       case Store(_, _, _, imm) => Fits(imm, 12)
       case OpImm(op, _, _, imm) => op != Sub && if IsShift(op) then imm < 32 else Fits(imm, 12)
       case Csr(_, _, rd, source, csr) => rd < 32 && source < 32 && csr < 0x1000
       case _ => true
  }

  /** A function code above a 5-bit amount. */
  function ShiftField(funct7: bv32, amount: bv32): bv32 {
    (funct7 << 5) | amount
  }

  /** The word the assembler emits for i. */
  function Encode32(i: Instr): bv32 {
    match i
    case Lui(rd, imm) => UType(imm, rd, 0x37)
    case Auipc(rd, imm) => UType(imm, rd, 0x17)
    case Jal(rd, offset) => JType(offset, rd, 0x6F)
    case Jalr(rd, rs1, imm) => IType(imm, rs1, 0, rd, 0x67)
    case Branch(op, rs1, rs2, offset) => BType(offset, rs2, rs1, Funct3OfBranch(op), 0x63)
    case Load(op, rd, rs1, imm) => IType(imm, rs1, Funct3OfLoad(op), rd, 0x03)
    case Store(op, rs2, rs1, imm) => SType(imm, rs2, rs1, Funct3OfStore(op), 0x23)
    case OpImm(op, rd, rs1, imm) =>
      IType(if IsShift(op) then ShiftField(Funct7OfAlu(op), imm) else imm, rs1, Funct3OfAlu(op), rd, 0x13)
    case Op(op, rd, rs1, rs2) => RType(Funct7OfAlu(op), rs2, rs1, Funct3OfAlu(op), rd, 0x33)
    case Fence => 0x0000_000F
    case Ecall => 0x0000_0073
    case Ebreak => 0x0010_0073
    case Wfi => 0x1050_0073
    case Mret => 0x3020_0073
    case Csr(op, immediate, rd, source, csr) => CsrType(csr, source, Funct3OfCsr(op, immediate), rd)
  }

  // ---------------------------------------------------------------- fields of a packed word

  lemma RFields(funct7: bv32, rs2: bv32, rs1: bv32, funct3: bv32, rd: bv32, opcode: bv32)
    requires funct7 < 128 && rs2 < 32 && rs1 < 32 && funct3 < 8 && rd < 32 && opcode < 128
    ensures var w := RType(funct7, rs2, rs1, funct3, rd, opcode);
      w & 0x7F == opcode && BitRange(w, 11, 7) == rd && BitRange(w, 14, 12) == funct3 && BitRange(w, 19, 15) == rs1
      && BitRange(w, 24, 20) == rs2 && BitRange(w, 31, 25) == funct7
  {
  }

  lemma IFields(imm: bv32, rs1: bv32, funct3: bv32, rd: bv32, opcode: bv32)
    requires rs1 < 32 && funct3 < 8 && rd < 32 && opcode < 128
    ensures var w := IType(imm, rs1, funct3, rd, opcode);
      w & 0x7F == opcode && BitRange(w, 11, 7) == rd && BitRange(w, 14, 12) == funct3 && BitRange(w, 19, 15) == rs1
      && BitRange(w, 31, 20) == imm & 0xFFF && (Fits(imm, 12) ==> ImmI(w) == imm)
  {
  }

  lemma SFields(imm: bv32, rs2: bv32, rs1: bv32, funct3: bv32, opcode: bv32)
    requires rs2 < 32 && rs1 < 32 && funct3 < 8 && opcode < 128
    ensures var w := SType(imm, rs2, rs1, funct3, opcode);
      w & 0x7F == opcode && BitRange(w, 14, 12) == funct3 && BitRange(w, 19, 15) == rs1 && BitRange(w, 24, 20) == rs2
      && (Fits(imm, 12) ==> ImmS(w) == imm)
  {
  }

  lemma BFields(imm: bv32, rs2: bv32, rs1: bv32, funct3: bv32, opcode: bv32)
    requires imm & 1 == 0 && rs2 < 32 && rs1 < 32 && funct3 < 8 && opcode < 128
    ensures var w := BType(imm, rs2, rs1, funct3, opcode);
      w & 0x7F == opcode && BitRange(w, 14, 12) == funct3 && BitRange(w, 19, 15) == rs1 && BitRange(w, 24, 20) == rs2
      && (Fits(imm, 13) ==> ImmB(w) == imm)
  {
  }

  lemma UFields(imm: bv32, rd: bv32, opcode: bv32)
    requires rd < 32 && opcode < 128
    ensures var w := UType(imm, rd, opcode);
      w & 0x7F == opcode && BitRange(w, 11, 7) == rd && ImmU(w) == imm & 0xFFFF_F000
  {
  }

  lemma JFields(imm: bv32, rd: bv32, opcode: bv32)
    requires imm & 1 == 0 && rd < 32 && opcode < 128
    ensures var w := JType(imm, rd, opcode);
      w & 0x7F == opcode && BitRange(w, 11, 7) == rd && (Fits(imm, 21) ==> ImmJ(w) == imm)
  {
  }

  // ---------------------------------------------------------------- assembling then decoding

  lemma DecodeEncodeUpper(i: Instr)
    requires i.Lui? || i.Auipc? || i.Jal?
    requires WellRanged(i)
    ensures Decode32(Encode32(i)) == Success(i)
  {
    match i
    case Lui(rd, imm) => UFields(imm, rd, 0x37);
    case Auipc(rd, imm) => UFields(imm, rd, 0x17);
    case Jal(rd, offset) =>
      JFields(offset, rd, 0x6F);
  }

  lemma DecodeEncodeJalr(i: Instr)
    requires i.Jalr? && WellRanged(i)
    ensures Decode32(Encode32(i)) == Success(i)
  {
    IFields(i.imm, i.rs1, 0, i.rd, 0x67);
  }

  lemma DecodeEncodeLoad(i: Instr)
    requires i.Load? && WellRanged(i)
    ensures Decode32(Encode32(i)) == Success(i)
  {
    IFields(i.imm, i.rs1, Funct3OfLoad(i.load), i.rd, 0x03);
    hide Encode32;
  }

  /** What a word decodes to, from its opcode and fields. */
  lemma FieldsDecode(w: bv32)
    ensures w & 0x7F == 0x63 && BitRange(w, 19, 15) < 16 && BitRange(w, 24, 20) < 16 &&
            BranchOpOf(BitRange(w, 14, 12)).Some? ==>
              Decode32(w) == Success(Branch(BranchOpOf(BitRange(w, 14, 12)).value, BitRange(w, 19, 15),
                  BitRange(w, 24, 20), ImmB(w)))
    ensures w & 0x7F == 0x23 && BitRange(w, 19, 15) < 16 && BitRange(w, 24, 20) < 16 &&
            StoreOpOf(BitRange(w, 14, 12)).Some? ==>
              Decode32(w) == Success(Store(StoreOpOf(BitRange(w, 14, 12)).value, BitRange(w, 24, 20),
                  BitRange(w, 19, 15), ImmS(w)))
  {
    hide BitRange, ImmI, ImmS, ImmB, ImmU, ImmJ, BranchOpOf, LoadOpOf, StoreOpOf, OpImmOf, OpOf, DecodeSystem;
  }

  lemma FieldsDecodeAlu(w: bv32)
    ensures var op := OpImmOf(BitRange(w, 14, 12), BitRange(w, 31, 25));
      w & 0x7F == 0x13 && BitRange(w, 11, 7) < 16 && BitRange(w, 19, 15) < 16 && op.Some? ==>
        Decode32(w) == Success(OpImm(op.value, BitRange(w, 11, 7), BitRange(w, 19, 15), if IsShift(op.value)
            then BitRange(w, 24, 20) else ImmI(w)))
    ensures var op := OpOf(BitRange(w, 14, 12), BitRange(w, 31, 25));
      w & 0x7F == 0x33 && BitRange(w, 11, 7) < 16 && BitRange(w, 19, 15) < 16 && BitRange(w, 24, 20) < 16 &&
          op.Some? ==>
        Decode32(w) == Success(Op(op.value, BitRange(w, 11, 7), BitRange(w, 19, 15), BitRange(w, 24, 20)))
  {
    hide BitRange, ImmI, ImmS, ImmB, ImmU, ImmJ, BranchOpOf, LoadOpOf, StoreOpOf, OpImmOf, OpOf, DecodeSystem, IsShift;
  }

  lemma BranchCodes(op: BranchOp)
    ensures Funct3OfBranch(op) < 8 && BranchOpOf(Funct3OfBranch(op)) == Some(op)
  {
  }

  lemma StoreCodes(op: StoreOp)
    ensures Funct3OfStore(op) < 8 && StoreOpOf(Funct3OfStore(op)) == Some(op)
  {
  }

  lemma AluCodes(op: AluOp)
    ensures Funct3OfAlu(op) < 8 && Funct7OfAlu(op) < 128
    ensures OpOf(Funct3OfAlu(op), Funct7OfAlu(op)) == Some(op)
    ensures IsShift(op) ==> OpImmOf(Funct3OfAlu(op), Funct7OfAlu(op)) == Some(op)
  {
  }

  lemma DecodeEncodeBranch(i: Instr)
    requires i.Branch? && WellRanged(i)
    ensures Decode32(Encode32(i)) == Success(i)
  {
    hide BitRange, ImmB, BType, Fits, Decode32, Funct3OfBranch, BranchOpOf;
    BranchCodes(i.branch);
    BFields(i.offset, i.rs2, i.rs1, Funct3OfBranch(i.branch), 0x63);
    FieldsDecode(Encode32(i));
  }

  lemma DecodeEncodeStore(i: Instr)
    requires i.Store? && WellRanged(i)
    ensures Decode32(Encode32(i)) == Success(i)
  {
    hide BitRange, ImmS, SType, Fits, Decode32, Funct3OfStore, StoreOpOf;
    StoreCodes(i.store);
    SFields(i.imm, i.rs2, i.rs1, Funct3OfStore(i.store), 0x23);
    FieldsDecode(Encode32(i));
  }

  lemma DecodeEncodeOp(i: Instr)
    requires i.Op? && WellRanged(i)
    ensures Decode32(Encode32(i)) == Success(i)
  {
    hide BitRange, RType, Decode32, Funct3OfAlu, Funct7OfAlu, OpOf, OpImmOf, IsShift;
    AluCodes(i.alu);
    RFields(Funct7OfAlu(i.alu), i.rs2, i.rs1, Funct3OfAlu(i.alu), i.rd, 0x33);
    FieldsDecodeAlu(Encode32(i));
  }

  /** A shift immediate carries its function code above the 5-bit amount. */
  lemma ShiftFields(funct7: bv32, amount: bv32, rs1: bv32, funct3: bv32, rd: bv32)
    requires funct7 < 128 && amount < 32 && rs1 < 32 && funct3 < 8 && rd < 32
    ensures var w := IType(ShiftField(funct7, amount), rs1, funct3, rd, 0x13);
      BitRange(w, 24, 20) == amount && BitRange(w, 31, 25) == funct7
  {
  }

  lemma DecodeEncodeShift(i: Instr)
    requires i.OpImm? && IsShift(i.alu) && WellRanged(i)
    ensures Decode32(Encode32(i)) == Success(i)
  {
    hide BitRange, ImmI, IType, Decode32, Funct3OfAlu, Funct7OfAlu, OpOf, OpImmOf, ShiftField;
    AluCodes(i.alu);
    IFields(ShiftField(Funct7OfAlu(i.alu), i.imm), i.rs1, Funct3OfAlu(i.alu), i.rd, 0x13);
    ShiftFields(Funct7OfAlu(i.alu), i.imm, i.rs1, Funct3OfAlu(i.alu), i.rd);
    FieldsDecodeAlu(Encode32(i));
  }

  lemma DecodeEncodeOpImm(i: Instr)
    requires i.OpImm? && !IsShift(i.alu) && WellRanged(i)
    ensures Decode32(Encode32(i)) == Success(i)
  {
    IFields(i.imm, i.rs1, Funct3OfAlu(i.alu), i.rd, 0x13);
  }

  lemma CsrFields(csr: bv32, source: bv32, funct3: bv32, rd: bv32)
    requires csr < 0x1000 && source < 32 && funct3 < 8 && rd < 32
    ensures var w := CsrType(csr, source, funct3, rd);
      w & 0x7F == 0x73 && BitRange(w, 11, 7) == rd && BitRange(w, 14, 12) == funct3 && BitRange(w, 19, 15) == source &&
          BitRange(w, 31, 20) == csr
  {
  }

  lemma CsrCodes(op: CsrOp, immediate: bool)
    ensures var funct3 := Funct3OfCsr(op, immediate);
      CsrOpOf(funct3) == Some(op) && (funct3 & 4 != 0) == immediate && 0 < funct3 < 8
  {
  }

  /** The instructions without operands have a zero function code. */
  lemma FixedWordsHaveNoFunction()
    ensures BitRange(0x73, 14, 12) == 0 && BitRange(0x0010_0073, 14, 12) == 0 && BitRange(0x1050_0073, 14, 12) == 0 &&
            BitRange(0x3020_0073, 14, 12) == 0
  {
  }

  lemma SystemWord(w: bv32)
    requires w & 0x7F == 0x73
    ensures Decode32(w) == DecodeSystem(w)
  {
    hide BitRange, DecodeSystem;
  }

  lemma DecodeEncodeCsr(i: Instr)
    requires i.Csr? && WellRanged(i)
    ensures Decode32(Encode32(i)) == Success(i)
  {
    hide BitRange, CsrType, Funct3OfCsr, CsrOpOf, Decode32;
    CsrCodes(i.csrOp, i.immediate);
    CsrFields(i.csr, i.source, Funct3OfCsr(i.csrOp, i.immediate), i.rd);
    FixedWordsHaveNoFunction();
    SystemWord(Encode32(i));
  }

  lemma DecodeEncodeFixed(i: Instr)
    requires i.Fence? || i.Ecall? || i.Ebreak? || i.Wfi? || i.Mret?
    ensures Decode32(Encode32(i)) == Success(i)
  {
  }

  /** Every well-ranged instruction is recovered from its encoding, scrambled immediates and signs included. */
  lemma DecodeEncode(i: Instr)
    requires WellRanged(i)
    ensures Decode32(Encode32(i)) == Success(i)
  {
    if i.Lui? || i.Auipc? || i.Jal? {
      DecodeEncodeUpper(i);
    } else if i.Jalr? {
      DecodeEncodeJalr(i);
    } else if i.Branch? {
      DecodeEncodeBranch(i);
    } else if i.Store? {
      DecodeEncodeStore(i);
    } else if i.Load? {
      DecodeEncodeLoad(i);
    } else if i.OpImm? {
      if IsShift(i.alu) { DecodeEncodeShift(i); } else { DecodeEncodeOpImm(i); }
    } else if i.Op? {
      DecodeEncodeOp(i);
    } else if i.Csr? {
      DecodeEncodeCsr(i);
    } else {
      DecodeEncodeFixed(i);
    }
  }

  // ---------------------------------------------------------------- decoding then assembling

  lemma RebuildI(w: bv32, imm: bv32)
    requires imm & 0xFFF == BitRange(w, 31, 20)
    ensures IType(imm, BitRange(w, 19, 15), BitRange(w, 14, 12), BitRange(w, 11, 7), w & 0x7F) == w
  {
  }

  lemma RebuildCsr(w: bv32)
    requires w & 0x7F == 0x73
    ensures CsrType(BitRange(w, 31, 20), BitRange(w, 19, 15), BitRange(w, 14, 12), BitRange(w, 11, 7)) == w
  {
  }

  lemma RebuildR(w: bv32)
    ensures RType(BitRange(w, 31, 25), BitRange(w, 24, 20), BitRange(w, 19, 15), BitRange(w, 14, 12),
                  BitRange(w, 11, 7), w & 0x7F) == w
  {
  }

  lemma ImmSFits(w: bv32)
    ensures Fits(ImmS(w), 12)
  {
  }

  lemma RebuildS(w: bv32)
    ensures SType(ImmS(w), BitRange(w, 24, 20), BitRange(w, 19, 15), BitRange(w, 14, 12), w & 0x7F) == w
  {
  }

  lemma ImmBFits(w: bv32)
    ensures Fits(ImmB(w), 13) && ImmB(w) & 1 == 0
  {
  }

  lemma RebuildB(w: bv32)
    ensures BType(ImmB(w), BitRange(w, 24, 20), BitRange(w, 19, 15), BitRange(w, 14, 12), w & 0x7F) == w
  {
  }

  lemma RebuildU(w: bv32)
    ensures UType(ImmU(w), BitRange(w, 11, 7), w & 0x7F) == w && ImmU(w) & 0xFFF == 0
  {
  }

  lemma RebuildJ(w: bv32)
    ensures JType(ImmJ(w), BitRange(w, 11, 7), w & 0x7F) == w && Fits(ImmJ(w), 21) && ImmJ(w) & 1 == 0
  {
  }

  lemma ImmIFits(w: bv32)
    ensures Fits(ImmI(w), 12) && ImmI(w) & 0xFFF == BitRange(w, 31, 20)
  {
  }

  /** The function codes name exactly one operation each. */
  lemma FunctionCodes(funct3: bv32, funct7: bv32)
    requires funct3 < 8
    ensures BranchOpOf(funct3).Some? ==> Funct3OfBranch(BranchOpOf(funct3).value) == funct3
    ensures LoadOpOf(funct3).Some? ==> Funct3OfLoad(LoadOpOf(funct3).value) == funct3
    ensures StoreOpOf(funct3).Some? ==> Funct3OfStore(StoreOpOf(funct3).value) == funct3
    ensures OpOf(funct3, funct7).Some? ==>
      Funct3OfAlu(OpOf(funct3, funct7).value) == funct3 && Funct7OfAlu(OpOf(funct3, funct7).value) == funct7
    ensures OpImmOf(funct3, funct7).Some? ==>
      && OpImmOf(funct3, funct7).value != Sub && Funct3OfAlu(OpImmOf(funct3, funct7).value) == funct3
      && (IsShift(OpImmOf(funct3, funct7).value) ==> Funct7OfAlu(OpImmOf(funct3, funct7).value) == funct7)
    ensures CsrOpOf(funct3).Some? ==> Funct3OfCsr(CsrOpOf(funct3).value, funct3 & 4 != 0) == funct3
  {
  }

  lemma FieldRanges(w: bv32)
    ensures BitRange(w, 11, 7) < 32 && BitRange(w, 14, 12) < 8 && BitRange(w, 19, 15) < 32
    ensures BitRange(w, 24, 20) < 32 && BitRange(w, 31, 25) < 128 && BitRange(w, 31, 20) < 0x1000
    ensures BitRange(w, 31, 20) & 0xFFF == BitRange(w, 31, 20)
    ensures BitRange(w, 31, 20) == ShiftField(BitRange(w, 31, 25), BitRange(w, 24, 20))
  {
  }

  lemma EncodeDecodeUpper(w: bv32)
    requires w & 0x7F == 0x37 || w & 0x7F == 0x17 || w & 0x7F == 0x6F
    requires Decode32(w).Success?
    ensures WellRanged(Decode32(w).value) && Encode32(Decode32(w).value) == w
  {
    RebuildU(w);
    RebuildJ(w);
    hide BitRange, ImmI, ImmS, ImmB, ImmU, ImmJ, IType, RType, SType, BType, UType, JType, Fits;
  }

  lemma EncodeDecodeJalrLoad(w: bv32)
    requires w & 0x7F == 0x67 || w & 0x7F == 0x03
    requires Decode32(w).Success?
    ensures WellRanged(Decode32(w).value) && Encode32(Decode32(w).value) == w
  {
    hide BitRange, ImmI, ImmS, ImmB, ImmU, ImmJ, IType, RType, SType, BType, UType, JType, Fits;
    FunctionCodes(BitRange(w, 14, 12), BitRange(w, 31, 25));
    FieldRanges(w);
    ImmIFits(w);
    RebuildI(w, ImmI(w));
  }

  lemma EncodeDecodeBranch(w: bv32)
    requires w & 0x7F == 0x63
    requires Decode32(w).Success?
    ensures WellRanged(Decode32(w).value) && Encode32(Decode32(w).value) == w
  {
    FunctionCodes(BitRange(w, 14, 12), BitRange(w, 31, 25));
    FieldRanges(w);
    RebuildB(w);
    ImmBFits(w);
    hide BitRange, ImmI, ImmS, ImmB, ImmU, ImmJ, IType, RType, SType, BType, UType, JType, Fits;
  }

  lemma EncodeDecodeStore(w: bv32)
    requires w & 0x7F == 0x23
    requires Decode32(w).Success?
    ensures WellRanged(Decode32(w).value) && Encode32(Decode32(w).value) == w
  {
    FunctionCodes(BitRange(w, 14, 12), BitRange(w, 31, 25));
    FieldRanges(w);
    RebuildS(w);
    ImmSFits(w);
    hide BitRange, ImmI, ImmS, ImmB, ImmU, ImmJ, IType, RType, SType, BType, UType, JType, Fits;
  }

  lemma OpImmCodes(funct3: bv32, funct7: bv32)
    requires OpImmOf(funct3, funct7).Some?
    ensures var op := OpImmOf(funct3, funct7).value;
      op != Sub && Funct3OfAlu(op) == funct3 && (IsShift(op) ==> Funct7OfAlu(op) == funct7)
  {
  }

  lemma OpImmDecodes(w: bv32)
    requires w & 0x7F == 0x13 && Decode32(w).Success?
    ensures var op := OpImmOf(BitRange(w, 14, 12), BitRange(w, 31, 25));
      && op.Some? && BitRange(w, 11, 7) < 16 && BitRange(w, 19, 15) < 16
      && Decode32(w).value == OpImm(op.value, BitRange(w, 11, 7), BitRange(w, 19, 15), if IsShift(op.value)
          then BitRange(w, 24, 20) else ImmI(w))
  {
    hide BitRange, ImmI, OpImmOf, IsShift;
  }

  lemma EncodeDecodeShift(w: bv32)
    requires w & 0x7F == 0x13
    requires Decode32(w).Success? && IsShift(Decode32(w).value.alu)
    ensures WellRanged(Decode32(w).value) && Encode32(Decode32(w).value) == w
  {
    hide BitRange, ImmI, IType, Fits, Funct3OfAlu, Funct7OfAlu, OpImmOf, Decode32, ShiftField;
    OpImmDecodes(w);
    OpImmCodes(BitRange(w, 14, 12), BitRange(w, 31, 25));
    FieldRanges(w);
    RebuildI(w, BitRange(w, 31, 20));
  }

  lemma EncodeDecodeOpImm(w: bv32)
    requires w & 0x7F == 0x13
    requires Decode32(w).Success? && !IsShift(Decode32(w).value.alu)
    ensures WellRanged(Decode32(w).value) && Encode32(Decode32(w).value) == w
  {
    hide BitRange, ImmI, IType, Fits, Funct3OfAlu, Funct7OfAlu, OpImmOf, Decode32;
    OpImmDecodes(w);
    OpImmCodes(BitRange(w, 14, 12), BitRange(w, 31, 25));
    FieldRanges(w);
    ImmIFits(w);
    RebuildI(w, ImmI(w));
  }

  lemma EncodeDecodeOp(w: bv32)
    requires w & 0x7F == 0x33
    requires Decode32(w).Success?
    ensures WellRanged(Decode32(w).value) && Encode32(Decode32(w).value) == w
  {
    FunctionCodes(BitRange(w, 14, 12), BitRange(w, 31, 25));
    FieldRanges(w);
    RebuildR(w);
    hide BitRange, ImmI, ImmS, ImmB, ImmU, ImmJ, IType, RType, SType, BType, UType, JType, Fits;
  }

  lemma EncodeDecodeCsr(w: bv32)
    requires w & 0x7F == 0x73
    requires DecodeSystem(w).Success? && DecodeSystem(w).value.Csr?
    ensures WellRanged(DecodeSystem(w).value) && Encode32(DecodeSystem(w).value) == w
  {
    FunctionCodes(BitRange(w, 14, 12), BitRange(w, 31, 25));
    FieldRanges(w);
    RebuildCsr(w);
    hide BitRange, CsrType, Funct3OfCsr, CsrOpOf;
  }

  /** A legal word other than a FENCE, whose unused fields are ignored, is rebuilt from the
      instruction it decodes to: no two such words mean the same instruction. */
  lemma EncodeDecode(w: bv32)
    requires Decode32(w).Success? && !Decode32(w).value.Fence?
    ensures WellRanged(Decode32(w).value) && Encode32(Decode32(w).value) == w
  {
    var opcode := w & 0x7F;
    if opcode == 0x37 || opcode == 0x17 || opcode == 0x6F {
      EncodeDecodeUpper(w);
    } else if opcode == 0x67 || opcode == 0x03 {
      EncodeDecodeJalrLoad(w);
    } else if opcode == 0x63 {
      EncodeDecodeBranch(w);
    } else if opcode == 0x23 {
      EncodeDecodeStore(w);
    } else if opcode == 0x13 {
      if IsShift(Decode32(w).value.alu) { EncodeDecodeShift(w); } else { EncodeDecodeOpImm(w); }
    } else if opcode == 0x33 {
      EncodeDecodeOp(w);
    } else {
      if DecodeSystem(w).value.Csr? { EncodeDecodeCsr(w); }
    }
  }
}
