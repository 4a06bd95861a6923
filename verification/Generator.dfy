/** The random program generator. Its random draws are parameters; every program it can
    emit is shown to run to its final breakpoint. */
module Generator {
  import opened Words
  import opened Isa
  import opened Decoder
  import opened Encoder
  import O = Opcodes
  import opened Compressed
  import opened Machine
  import opened Model
  import opened Image
  import opened Numbers
  import opened Runs
  import opened Trace
  import A = Arithmetic

  // ---------------------------------------------------------------- what is drawn and what is emitted

  /** One step of the generator, with the values drawn for it. */
  datatype Draw =
    | ImmediateDraw(alu: AluOp, rd: bv32, rs1: bv32, imm: bv32)
    | ShiftDraw(alu: AluOp, rd: bv32, rs1: bv32, shamt: bv32)
    | RegisterDraw(alu: AluOp, rd: bv32, rs1: bv32, rs2: bv32)
    | LoadDraw(load: LoadOp, rd: bv32, offset: bv32)
    | StoreDraw(store: StoreOp, rs2: bv32, offset: bv32)
    | CAddiDraw(rd: bv32, imm: bv32)
    | CLiDraw(rd: bv32, imm: bv32)
    | CSlliDraw(rd: bv32, shamt: bv32)
    | CMvDraw(rd: bv32, rs2: bv32)
    | CAddDraw(rd: bv32, rs2: bv32)
    | CLwDraw(reg: bv32, offset: bv32)
    | CSwDraw(reg: bv32, offset: bv32)
    | CLwspDraw(rd: bv32, offset: bv32)
    | CSwspDraw(rs2: bv32, offset: bv32)

  /** x1..x15 without the two base registers x2 and x8. */
  predicate DataReg(reg: bv32) {
    0 < reg < 16 && reg != 2 && reg != 8
  }

  predicate CompactReg(reg: bv32) {
    9 <= reg < 16
  }

  /** An offset into the 64-byte data window, aligned for the access. */
  predicate WindowOffset(offset: bv32, size: nat) {
    offset < 64 && Aligned(offset, size)
  }

  /** The ranges the generator draws from. */
  predicate InRange(d: Draw) {
    match d
    case ImmediateDraw(op, rd, rs1, imm) => op in {Add, Slt, Sltu, Xor, Or, And} && DataReg(rd) && DataReg(rs1) &&
        Fits(imm, 8)
    case ShiftDraw(op, rd, rs1, shamt) => IsShift(op) && DataReg(rd) && DataReg(rs1) && shamt < 32
    case RegisterDraw(_, rd, rs1, rs2) => DataReg(rd) && DataReg(rs1) && DataReg(rs2)
    case LoadDraw(op, rd, offset) => DataReg(rd) && WindowOffset(offset, LoadSize(op))
    case StoreDraw(op, rs2, offset) => DataReg(rs2) && WindowOffset(offset, StoreSize(op))
    case CAddiDraw(rd, imm) => DataReg(rd) && imm != 0 && Fits(imm, 6)
    case CLiDraw(rd, imm) => DataReg(rd) && Fits(imm, 6)
    case CSlliDraw(rd, shamt) => DataReg(rd) && 0 < shamt < 32
    case CMvDraw(rd, rs2) => DataReg(rd) && DataReg(rs2)
    case CAddDraw(rd, rs2) => DataReg(rd) && DataReg(rs2)
    case CLwDraw(reg, offset) => CompactReg(reg) && WindowOffset(offset, 4)
    case CSwDraw(reg, offset) => CompactReg(reg) && WindowOffset(offset, 4)
    case CLwspDraw(rd, offset) => DataReg(rd) && WindowOffset(offset, 4)
    case CSwspDraw(rs2, offset) => DataReg(rs2) && WindowOffset(offset, 4)
  }

  /** The instruction a draw stands for. */
  function Meaning(d: Draw): Instr {
    match d
    case ImmediateDraw(op, rd, rs1, imm) => OpImm(op, rd, rs1, imm)
    case ShiftDraw(op, rd, rs1, shamt) => OpImm(op, rd, rs1, shamt)
    case RegisterDraw(op, rd, rs1, rs2) => Op(op, rd, rs1, rs2)
    case LoadDraw(op, rd, offset) => Load(op, rd, 8, offset)
    case StoreDraw(op, rs2, offset) => Store(op, rs2, 8, offset)
    case CAddiDraw(rd, imm) => OpImm(Add, rd, rd, imm)
    case CLiDraw(rd, imm) => OpImm(Add, rd, 0, imm)
    case CSlliDraw(rd, shamt) => OpImm(Sll, rd, rd, shamt)
    case CMvDraw(rd, rs2) => Op(Add, rd, 0, rs2)
    case CAddDraw(rd, rs2) => Op(Add, rd, rd, rs2)
    case CLwDraw(reg, offset) => Load(Lw, reg, 8, offset)
    case CSwDraw(reg, offset) => Store(Sw, reg, 8, offset)
    case CLwspDraw(rd, offset) => Load(Lw, rd, 2, offset)
    case CSwspDraw(rs2, offset) => Store(Sw, rs2, 2, offset)
  }

  lemma CompactEncodes(reg: bv32, offset: bv32)
    requires CompactReg(reg) && WindowOffset(offset, 4)
    ensures CLw(reg, 8, offset).Success? && CSw(reg, 8, offset).Success?
  {
  }

  /** What the generator appends for a draw. */
  function Emitted(d: Draw): Parcel
    requires InRange(d)
  {
    hide CLw, CSw, CompactReg, WindowOffset, DataReg, Fits, Encode32;
    match d
    case CAddiDraw(rd, imm) => Short(CAddi(rd, imm))
    case CLiDraw(rd, imm) => Short(CLi(rd, imm))
    case CSlliDraw(rd, shamt) => Short(CSlli(rd, shamt))
    case CMvDraw(rd, rs2) => Short(CCr(0, rd, rs2))
    case CAddDraw(rd, rs2) => Short(CCr(1, rd, rs2))
    case CLwDraw(reg, offset) => CompactEncodes(reg, offset); Short(CLw(reg, 8, offset).value)
    case CSwDraw(reg, offset) => CompactEncodes(reg, offset); Short(CSw(reg, 8, offset).value)
    case CLwspDraw(rd, offset) => Short(CLwsp(rd, offset))
    case CSwspDraw(rs2, offset) => Short(CSwsp(rs2, offset))
    case _ => Long(Encode32(Meaning(d)))
  }

  function Decode(p: Parcel): Decoded {
    if p.Short? then Decode16(p.value) else Decode32(p.value)
  }

  // ---------------------------------------------------------------- emitted parcels are what they mean

  lemma DrawRegisters(reg: bv32)
    requires DataReg(reg) || CompactReg(reg)
    ensures reg < 16 && reg != 0 && reg != 2 && reg != 8
    ensures CompactReg(reg) ==> 8 <= reg <= 15
  {
  }

  lemma NarrowFits(imm: bv32)
    ensures Fits(imm, 8) ==> Fits(imm, 12)
    ensures Fits(imm, 6) ==> Fits(imm, 12)
  {
  }

  lemma OffsetFits(offset: bv32)
    requires offset < 64
    ensures Fits(offset, 12) && offset < 128 && offset < 256
  {
  }

  lemma AlignedOffset(offset: bv32)
    requires WindowOffset(offset, 4)
    ensures offset & 3 == 0 && offset < 64
  {
  }

  /** A 32-bit encoding has its low bits set. */
  lemma EncodingIsLong(i: Instr)
    requires WellRanged(i) && (i.OpImm? || i.Op? || i.Load? || i.Store?)
    ensures Long(Encode32(i)).Proper()
  {
    hide Fits, Funct3OfAlu, Funct7OfAlu, Funct3OfLoad, Funct3OfStore, Operands;
  }

  /** Instructions that write data registers only and access memory only in the window at x2 or x8. */
  predicate Tame(i: Instr) {
    match i
    case OpImm(_, rd, rs1, _) => DataReg(rd) && IsReg(rs1)
    case Op(_, rd, rs1, rs2) => DataReg(rd) && IsReg(rs1) && IsReg(rs2)
    case Load(op, rd, rs1, imm) => DataReg(rd) && (rs1 == 2 || rs1 == 8) && WindowOffset(imm, LoadSize(op))
    case Store(op, rs2, rs1, imm) => IsReg(rs2) && (rs1 == 2 || rs1 == 8) && WindowOffset(imm, StoreSize(op))
    case _ => false
  }

  lemma RegisterKinds(reg: bv32)
    ensures (DataReg(reg) ==> IsReg(reg)) && (CompactReg(reg) ==> IsReg(reg) && DataReg(reg)) && IsReg(0)
  {
  }

  lemma TameMeaning(d: Draw)
    requires InRange(d)
    ensures Tame(Meaning(d))
  {
    hide InRange, Tame, Meaning;
    if IsLong(d) {
      TameLongMeaning(d);
    } else {
      TameShortMeaning(d);
    }
  }

  predicate IsLong(d: Draw) {
    d.ImmediateDraw? || d.ShiftDraw? || d.RegisterDraw? || d.LoadDraw? || d.StoreDraw?
  }

  lemma TameLongMeaning(d: Draw)
    requires InRange(d) && IsLong(d)
    ensures Tame(Meaning(d))
  {
    hide Fits, IsShift, IsReg, DataReg, CompactReg, WindowOffset;
    match d
    case ImmediateDraw(_, rd, rs1, _) => RegisterKinds(rs1);
    case ShiftDraw(_, rd, rs1, _) => RegisterKinds(rs1);
    case RegisterDraw(_, rd, rs1, rs2) =>
      RegisterKinds(rs1);
      RegisterKinds(rs2);
    case LoadDraw(_, rd, _) =>
    case StoreDraw(_, rs2, _) => RegisterKinds(rs2);
  }

  lemma TameShortMeaning(d: Draw)
    requires InRange(d) && !IsLong(d)
    ensures Tame(Meaning(d))
  {
    hide Fits, IsShift, IsReg, DataReg, CompactReg, WindowOffset;
    match d
    case CAddiDraw(rd, _) => RegisterKinds(rd);
    case CLiDraw(rd, _) => RegisterKinds(rd);
    case CSlliDraw(rd, _) => RegisterKinds(rd);
    case CMvDraw(rd, rs2) => RegisterKinds(rs2);
    case CAddDraw(rd, rs2) =>
      RegisterKinds(rd);
      RegisterKinds(rs2);
    case CLwDraw(reg, _) => RegisterKinds(reg);
    case CSwDraw(reg, _) => RegisterKinds(reg);
    case CLwspDraw(rd, _) =>
    case CSwspDraw(rs2, _) => RegisterKinds(rs2);
  }

  lemma LongDrawDecodes(d: Draw)
    requires InRange(d)
    requires IsLong(d)
    ensures Emitted(d).Proper() && Decode(Emitted(d)) == Success(Meaning(d))
  {
    hide WellRanged, Encode32, Decode32, Parcel.Proper;
    LongDrawRanged(d);
    EncodingIsLong(Meaning(d));
    DecodeEncode(Meaning(d));
  }

  lemma LongDrawRanged(d: Draw)
    requires InRange(d)
    requires IsLong(d)
    ensures WellRanged(Meaning(d))
  {
    if d.LoadDraw? || d.StoreDraw? {
      LongMemoryRanged(d);
    } else {
      hide Fits, Aligned;
      if d.ImmediateDraw? {
        NarrowFits(d.imm);
      }
    }
  }

  lemma LongMemoryRanged(d: Draw)
    requires InRange(d) && (d.LoadDraw? || d.StoreDraw?)
    ensures WellRanged(Meaning(d))
  {
    hide Fits, Aligned;
    OffsetFits(d.offset);
  }

  lemma ShortDrawDecodes(d: Draw)
    requires InRange(d)
    requires d.CAddiDraw? || d.CLiDraw? || d.CSlliDraw? || d.CMvDraw? || d.CAddDraw?
    ensures Emitted(d).Proper() && Decode(Emitted(d)) == Success(Meaning(d))
  {
    hide CAddi, CLi, CSlli, CCr, Decode16, Fits, IsCompressed;
    match d
    case CAddiDraw(rd, imm) =>
      DecodeAddi(rd, imm);
    case CLiDraw(rd, imm) =>
      DecodeLi(rd, imm);
    case CSlliDraw(rd, shamt) =>
      DecodeSlli(rd, shamt);
    case CMvDraw(rd, rs2) =>
      DecodeCr(0, rd, rs2);
    case CAddDraw(rd, rs2) =>
      DecodeCr(1, rd, rs2);
  }

  lemma MemoryDrawDecodes(d: Draw)
    requires InRange(d)
    requires d.CLwDraw? || d.CSwDraw? || d.CLwspDraw? || d.CSwspDraw?
    ensures Emitted(d).Proper() && Decode(Emitted(d)) == Success(Meaning(d))
  {
    hide CLw, CSw, CLwsp, CSwsp, Decode16, Aligned, WindowOffset, DataReg, CompactReg, IsCompressed;
    match d
    case CLwDraw(reg, offset) =>
      DrawRegisters(reg);
      AlignedOffset(offset);
      OffsetFits(offset);
      DecodeLw(reg, 8, offset);
    case CSwDraw(reg, offset) =>
      DrawRegisters(reg);
      AlignedOffset(offset);
      OffsetFits(offset);
      DecodeSw(reg, 8, offset);
    case CLwspDraw(rd, offset) =>
      DrawRegisters(rd);
      AlignedOffset(offset);
      OffsetFits(offset);
      DecodeStackAccess(rd, offset);
    case CSwspDraw(rs2, offset) =>
      DrawRegisters(rs2);
      AlignedOffset(offset);
      OffsetFits(offset);
      DecodeStackAccess(rs2, offset);
  }

  /** Every draw is emitted as a parcel of the right length that decodes to its meaning. */
  lemma DrawDecodes(d: Draw)
    requires InRange(d)
    ensures Emitted(d).Proper() && Decode(Emitted(d)) == Success(Meaning(d)) && Tame(Meaning(d))
  {
    hide Emitted, Decode, Meaning, Tame, InRange, Parcel.Proper;
    TameMeaning(d);
    if d.ImmediateDraw? || d.ShiftDraw? || d.RegisterDraw? || d.LoadDraw? || d.StoreDraw? {
      LongDrawDecodes(d);
    } else if d.CLwDraw? || d.CSwDraw? || d.CLwspDraw? || d.CSwspDraw? {
      MemoryDrawDecodes(d);
    } else {
      ShortDrawDecodes(d);
    }
  }

  /** What is drawn: registers from the data registers, or the compact ones, signed immediates of 8 or 6
      bits, amounts below 32, and aligned offsets below 64. */
  lemma ImmediateRanges(op: AluOp, rd: bv32, rs1: bv32, imm: bv32)
    ensures InRange(ImmediateDraw(op, rd, rs1, imm)) <==>
            op !in {Sub, Sll, Srl, Sra} && DataReg(rd) && DataReg(rs1) && (imm < 128 || imm >= 0xFFFF_FF80)
    ensures InRange(ShiftDraw(op, rd, rs1, imm)) <==>
            op in {Sll, Srl, Sra} && DataReg(rd) && DataReg(rs1) && imm < 32
  {
    hide DataReg, Fits;
    EightBits(imm);
  }

  lemma RegisterRanges(op: AluOp, rd: bv32, rs1: bv32, rs2: bv32)
    ensures InRange(RegisterDraw(op, rd, rs1, rs2)) <==> DataReg(rd) && DataReg(rs1) && DataReg(rs2)
    ensures InRange(CMvDraw(rd, rs2)) <==> DataReg(rd) && DataReg(rs2)
    ensures InRange(CAddDraw(rd, rs2)) <==> DataReg(rd) && DataReg(rs2)
  {
    hide DataReg;
  }

  lemma MemoryRanges(load: LoadOp, store: StoreOp, reg: bv32, offset: bv32)
    ensures InRange(LoadDraw(load, reg, offset)) <==>
            DataReg(reg) && WindowOffset(offset, match load case Lb | Lbu => 1 case Lh | Lhu => 2 case Lw => 4)
    ensures InRange(StoreDraw(store, reg, offset)) <==>
            DataReg(reg) && WindowOffset(offset, match store case Sb => 1 case Sh => 2 case Sw => 4)
    ensures InRange(CLwspDraw(reg, offset)) <==> DataReg(reg) && WindowOffset(offset, 4)
    ensures InRange(CSwspDraw(reg, offset)) <==> DataReg(reg) && WindowOffset(offset, 4)
    ensures InRange(CLwDraw(reg, offset)) <==> CompactReg(reg) && WindowOffset(offset, 4)
    ensures InRange(CSwDraw(reg, offset)) <==> CompactReg(reg) && WindowOffset(offset, 4)
  {
    hide DataReg, CompactReg, WindowOffset;
  }

  lemma ShortRanges(rd: bv32, imm: bv32)
    ensures InRange(CAddiDraw(rd, imm)) <==> DataReg(rd) && imm != 0 && (imm < 32 || imm >= 0xFFFF_FFE0)
    ensures InRange(CLiDraw(rd, imm)) <==> DataReg(rd) && (imm < 32 || imm >= 0xFFFF_FFE0)
    ensures InRange(CSlliDraw(rd, imm)) <==> DataReg(rd) && imm != 0 && imm < 32
  {
    hide DataReg, Fits;
    SixBits(imm);
    AboveZero(imm);
  }

  lemma AboveZero(a: bv32)
    ensures 0 < a <==> a != 0
  {
  }

  /** The instruction that each draw is decoded as. */
  lemma DrawMeans(d: Draw)
    requires InRange(d)
    ensures Decode(Emitted(d)) ==
            match d
            case ImmediateDraw(op, rd, rs1, imm) => Success(OpImm(op, rd, rs1, imm))
            case ShiftDraw(op, rd, rs1, shamt) => Success(OpImm(op, rd, rs1, shamt))
            case RegisterDraw(op, rd, rs1, rs2) => Success(Op(op, rd, rs1, rs2))
            case LoadDraw(op, rd, offset) => Success(Load(op, rd, 8, offset))
            case StoreDraw(op, rs2, offset) => Success(Store(op, rs2, 8, offset))
            case CAddiDraw(rd, imm) => Success(OpImm(Add, rd, rd, imm))
            case CLiDraw(rd, imm) => Success(OpImm(Add, rd, 0, imm))
            case CSlliDraw(rd, shamt) => Success(OpImm(Sll, rd, rd, shamt))
            case CMvDraw(rd, rs2) => Success(Op(Add, rd, 0, rs2))
            case CAddDraw(rd, rs2) => Success(Op(Add, rd, rd, rs2))
            case CLwDraw(reg, offset) => Success(Load(Lw, reg, 8, offset))
            case CSwDraw(reg, offset) => Success(Store(Sw, reg, 8, offset))
            case CLwspDraw(rd, offset) => Success(Load(Lw, rd, 2, offset))
            case CSwspDraw(rs2, offset) => Success(Store(Sw, rs2, 2, offset))
  {
    hide Emitted, Decode, InRange;
    DrawDecodes(d);
  }

  /** The long ones are packed from the codes of the instruction listing, with the source registers in
      this order. */
  lemma EmittedImmediate(op: AluOp, rd: bv32, rs1: bv32, imm: bv32)
    ensures InRange(ImmediateDraw(op, rd, rs1, imm)) ==>
              Emitted(ImmediateDraw(op, rd, rs1, imm)) == Long(IType(imm, rs1, O.Listed(op).1, rd, 0x13))
    ensures InRange(ShiftDraw(op, rd, rs1, imm)) ==>
              Emitted(ShiftDraw(op, rd, rs1, imm)) ==
              Long(IType((O.Listed(op).0 << 5) | imm, rs1, O.Listed(op).1, rd, 0x13))
  {
    ShiftFieldIs(O.Listed(op).0, imm);
    AluCodes(op);
    hide InRange, IType, Funct3OfAlu, Funct7OfAlu, O.Listed, ShiftField;
    if InRange(ImmediateDraw(op, rd, rs1, imm)) {
      DrawnOperations(ImmediateDraw(op, rd, rs1, imm));
    }
    if InRange(ShiftDraw(op, rd, rs1, imm)) {
      DrawnOperations(ShiftDraw(op, rd, rs1, imm));
    }
  }

  lemma ShiftFieldIs(funct7: bv32, amount: bv32)
    ensures ShiftField(funct7, amount) == (funct7 << 5) | amount
  {
  }

  lemma EmittedRegisters(op: AluOp, rd: bv32, rs1: bv32, rs2: bv32)
    requires InRange(RegisterDraw(op, rd, rs1, rs2))
    ensures Emitted(RegisterDraw(op, rd, rs1, rs2)) ==
            Long(RType(O.Listed(op).0, rs2, rs1, O.Listed(op).1, rd, 0x33))
  {
    AluCodes(op);
    hide InRange, RType, Funct3OfAlu, Funct7OfAlu, O.Listed;
  }

  lemma EmittedLoad(op: LoadOp, rd: bv32, offset: bv32)
    requires InRange(LoadDraw(op, rd, offset))
    ensures Emitted(LoadDraw(op, rd, offset)) == Long(IType(offset, 8, O.ListedLoad(op), rd, 0x03))
  {
    LoadCodes(op);
    hide InRange, IType, Funct3OfLoad, O.ListedLoad;
  }

  lemma EmittedStore(op: StoreOp, rs2: bv32, offset: bv32)
    requires InRange(StoreDraw(op, rs2, offset))
    ensures Emitted(StoreDraw(op, rs2, offset)) == Long(SType(offset, rs2, 8, O.ListedStore(op), 0x23))
  {
    StoreCodes(op);
    hide InRange, SType, Funct3OfStore, O.ListedStore;
  }

  lemma DrawnOperations(d: Draw)
    requires InRange(d)
    ensures d.ImmediateDraw? ==> !IsShift(d.alu)
    ensures d.ShiftDraw? ==> IsShift(d.alu)
  {
    hide DataReg, CompactReg, WindowOffset, Fits;
  }

  lemma AluCodes(op: AluOp)
    ensures Funct3OfAlu(op) == O.Listed(op).1 && Funct7OfAlu(op) == O.Listed(op).0
  {
  }

  lemma LoadCodes(op: LoadOp)
    ensures Funct3OfLoad(op) == O.ListedLoad(op)
  {
  }

  lemma StoreCodes(op: StoreOp)
    ensures Funct3OfStore(op) == O.ListedStore(op)
  {
  }

  /** Ranges of signed immediates. */
  lemma SixBits(imm: bv32)
    ensures Fits(imm, 6) <==> imm < 32 || imm >= 0xFFFF_FFE0
  {
  }

  lemma EightBits(imm: bv32)
    ensures Fits(imm, 8) <==> imm < 128 || imm >= 0xFFFF_FF80
  {
  }

  lemma TwelveBits(imm: bv32)
    ensures Fits(imm, 12) <==> imm < 0x800 || imm >= 0xFFFF_F800
  {
  }

  lemma RegistersAre(reg: bv32)
    ensures DataReg(reg) <==> reg in {1, 3, 4, 5, 6, 7, 9, 10, 11, 12, 13, 14, 15}
    ensures CompactReg(reg) <==> reg in {9, 10, 11, 12, 13, 14, 15}
  {
  }

  lemma WindowOffsetIs(offset: bv32)
    ensures WindowOffset(offset, 1) <==> offset < 64
    ensures WindowOffset(offset, 2) <==> offset < 64 && offset % 2 == 0
    ensures WindowOffset(offset, 4) <==> offset < 64 && offset % 4 == 0
  {
  }

  // ---------------------------------------------------------------- one tame step

  /** The address is inside [base, base + 64), with room for `size` bytes aligned there. */
  ghost predicate InWindow(address: bv32, base: bv32, size: nat) {
    exists offset :: WindowOffset(offset, size) && address == Add32(base, offset)
  }

  lemma WindowAddress(base: bv32, offset: bv32, size: nat)
    requires base & 3 == 0 && base <= 0xFFFF_FFC0 && WindowOffset(offset, size)
    ensures Aligned(Add32(base, offset), size) && !Below(Add32(base, offset), base)
  {
  }

  lemma NotBelow(a: bv32, b: bv32)
    requires !Below(a, b)
    ensures Unsigned(b) <= Unsigned(a)
  {
    hide Unsigned, Below;
    if a != b {
      BelowOrEqual(b, a);
      UnsignedMonotone(b, a);
    }
  }

  /** Both base registers hold base, a 4-aligned address with 64 bytes above it. */
  predicate BasesSet(regs: RegFile, base: bv32) {
    Reg(regs, 2) == base && Reg(regs, 8) == base
  }

  predicate DataBase(base: bv32) {
    base & 3 == 0 && base <= 0xFFFF_FFC0
  }

  /** Memory is unchanged below limit. */
  ghost predicate SameBelow(before: Memory, after: Memory, limit: int) {
    forall a :: a < limit ==> (a in after <==> a in before) && (a in before ==> after[a] == before[a])
  }

  lemma OtherReg(regs: RegFile, rd: bv32, value: bv32, other: bv32)
    requires rd < 16 && other < 16 && rd != other
    ensures Reg(SetReg(regs, rd, value), other) == Reg(regs, other)
  {
    assert (rd as int) as bv32 == rd && (other as int) as bv32 == other;
  }

  lemma BasesKept(regs: RegFile, rd: bv32, value: bv32, base: bv32)
    requires DataReg(rd) && BasesSet(regs, base)
    ensures rd < 16 && BasesSet(SetReg(regs, rd, value), base)
  {
    hide Reg, SetReg;
    OtherReg(regs, rd, value, 2);
    OtherReg(regs, rd, value, 8);
  }

  /** What a tame instruction does to the state, and what it logs. */
  ghost predicate TameOutcome(s: Arch, o: Outcome, length: bv32, base: bv32, width: StoreOp) {
    && o.Done?
    && o.arch.pc == Add32(s.pc, length)
    && BasesSet(o.arch.regs, base)
    && SameBelow(s.memory, o.arch.memory, Unsigned(base))
    && StaysInWindow(o.effect, base, width)
  }

  /** Every access is inside the window, a store with all its bytes. */
  ghost predicate StaysInWindow(effect: Effect, base: bv32, width: StoreOp) {
    && (effect.memAddr.Some? ==> InWindow(effect.memAddr.value, base, 1))
    && (effect.memWrite.Some? ==> effect.memAddr.Some? && InWindow(effect.memAddr.value, base, StoreSize(width)))
  }

  lemma RetireTame(s: Arch, length: bv32, rd: bv32, value: bv32, base: bv32, width: StoreOp)
    requires DataReg(rd) && BasesSet(s.regs, base)
    ensures rd < 16 && TameOutcome(s, Retire(s, Add32(s.pc, length), rd, value), length, base, width)
  {
    hide BasesSet, SetReg, Unsigned, Add32;
    BasesKept(s.regs, rd, value, base);
  }

  lemma ByteOffset(offset: bv32, size: nat)
    requires WindowOffset(offset, size)
    ensures WindowOffset(offset, 1)
  {
  }

  lemma LoadTame(op: LoadOp, rd: bv32, offset: bv32, s: Arch, length: bv32, base: bv32, width: StoreOp)
    requires DataReg(rd) && BasesSet(s.regs, base) && DataBase(base) && WindowOffset(offset, LoadSize(op))
    ensures rd < 16 && TameOutcome(s, ExecLoad(op, rd, Add32(base, offset), s, Add32(s.pc, length)), length, base,
            width)
  {
    hide BasesSet, SetReg, Unsigned, Add32, LoadValue, WindowOffset, Aligned, Below;
    WindowAddress(base, offset, LoadSize(op));
    ByteOffset(offset, LoadSize(op));
    BasesKept(s.regs, rd, LoadValue(op, s.memory, Add32(base, offset)), base);
  }

  lemma StoreTame(op: StoreOp, value: bv32, offset: bv32, s: Arch, length: bv32, base: bv32)
    requires BasesSet(s.regs, base) && DataBase(base) && WindowOffset(offset, StoreSize(op))
    ensures TameOutcome(s, ExecStore(op, value, Add32(base, offset), s, Add32(s.pc, length)), length, base, op)
  {
    hide BasesSet, Unsigned, Add32, WindowOffset, Aligned, Below, StoreValue, SameBelow, StoredPart;
    var address := Add32(base, offset);
    WindowAddress(base, offset, StoreSize(op));
    ByteOffset(offset, StoreSize(op));
    NotBelow(address, base);
    StoreBelow(op, s.memory, address, value, Unsigned(base));
  }

  lemma StoreBelow(op: StoreOp, memory: Memory, address: bv32, value: bv32, limit: int)
    requires limit <= Unsigned(address)
    ensures SameBelow(memory, StoreValue(op, memory, address, value), limit)
  {
    hide Unsigned, StoreBytes, ByteOf;
    StoreBytesCells(memory, Unsigned(address), value, StoreSize(op));
  }

  /** A tame instruction completes, goes on to the next instruction, keeps both base registers and
      touches memory only in the window. */
  lemma ExecTame(i: Instr, s: Arch, length: bv32, base: bv32, width: StoreOp)
    requires Tame(i) && BasesSet(s.regs, base) && DataBase(base) && (i.Store? ==> i.store == width)
    ensures Operands(i) && TameOutcome(s, Exec(i, s, length), length, base, width)
  {
    hide Reg, Alu, Retire, Add32, WindowOffset, DataReg, IsReg, TameOutcome, ExecLoad, ExecStore, DataBase;
    hide ExecCsr, ExecMret, ExecJal, ExecJalr, ExecBranch, Taken;
    BaseIsReg();
    BaseValues(s.regs, base);
    match i
    case OpImm(op, rd, rs1, imm) =>
      RegisterKinds(rd);
      SmallIndex(rs1);
      RetireTame(s, length, rd, Alu(op, Reg(s.regs, rs1), imm), base, width);
    case Op(op, rd, rs1, rs2) =>
      RegisterKinds(rd);
      SmallIndex(rs1);
      SmallIndex(rs2);
      RetireTame(s, length, rd, Alu(op, Reg(s.regs, rs1), Reg(s.regs, rs2)), base, width);
    case Load(op, rd, rs1, imm) =>
      RegisterKinds(rd);
      LoadTame(op, rd, imm, s, length, base, width);
    case Store(op, rs2, rs1, imm) =>
      SmallIndex(rs2);
      StoreTame(op, Reg(s.regs, rs2), imm, s, length, base);
  }

  lemma BaseIsReg()
    ensures IsReg(2) && IsReg(8)
  {
  }

  lemma SmallIndex(reg: bv32)
    requires IsReg(reg)
    ensures reg < 16
  {
  }

  lemma BaseValues(regs: RegFile, base: bv32)
    requires BasesSet(regs, base)
    ensures Reg(regs, 2) == base && Reg(regs, 8) == base
  {
  }

  /** Execution at the two lengths, in terms of the decoded instruction. */
  lemma ExecuteParcelTame(p: Parcel, s: Arch, base: bv32)
    requires Decode(p).Success? && Tame(Decode(p).value) && BasesSet(s.regs, base) && DataBase(base)
    ensures TameOutcome(s, Execute(s, p.value, p.Length()), p.Length(), base, StoreWidth(p.value, p.Length()))
  {
    hide Exec, Decode16, Decode32, BasesSet, SameBelow, InWindow, Unsigned, Add32, BitRange, Tame;
    var i := Decode(p).value;
    if p.Short? {
      Decode16Store(p.value);
    } else if i.Store? {
      Decode32Store(p.value);
    }
    ExecTame(i, s, p.Length(), base, StoreWidth(p.value, p.Length()));
  }

  lemma ClearX0Keeps(regs: RegFile, base: bv32)
    requires BasesSet(regs, base)
    ensures BasesSet(regs[0 := 0], base)
  {
  }

  /** One step over a fetched tame parcel. */
  ghost predicate TameStepResult(m: Machine, next: Machine, p: Parcel, base: bv32) {
    && next.Running()
    && next.arch.pc == Add32(m.arch.pc, p.Length())
    && BasesSet(next.arch.regs, base)
    && SameBelow(m.arch.memory, next.arch.memory, Unsigned(base))
  }

  /** The record of a tame step: no trap, and every access in the window. */
  ghost predicate TameItem(item: Record, base: bv32) {
    item.cause.None? && StaysInWindow(item.effect, base, StoreWidth(item.insn, item.length))
  }

  /** Such an access starts in the 64 bytes from the base on, and a store ends in them. */
  lemma TameItemStays(item: Record, base: bv32)
    requires TameItem(item, base) && DataBase(base)
    ensures item.cause == None
    ensures item.effect.memAddr.Some? ==>
              Unsigned(base) <= Unsigned(item.effect.memAddr.value) < Unsigned(base) + 64
    ensures item.effect.memWrite.Some? ==>
              item.effect.memAddr.Some? &&
              Unsigned(item.effect.memAddr.value) + StoreSize(StoreWidth(item.insn, item.length)) <= Unsigned(base) + 64
  {
    hide Unsigned, InWindow, StoreWidth, DataBase;
    var width := StoreSize(StoreWidth(item.insn, item.length));
    if item.effect.memAddr.Some? {
      WindowBounds(item.effect.memAddr.value, base, 1);
      if item.effect.memWrite.Some? {
        WindowBounds(item.effect.memAddr.value, base, width);
      }
    }
  }

  lemma WindowBounds(address: bv32, base: bv32, size: nat)
    requires InWindow(address, base, size) && DataBase(base) && (size == 1 || size == 2 || size == 4)
    ensures Unsigned(base) <= Unsigned(address) && Unsigned(address) + size <= Unsigned(base) + 64
  {
    hide Unsigned, Add32, WindowOffset, DataBase;
    var offset :| WindowOffset(offset, size) && address == Add32(base, offset);
    OffsetEnds(offset, size);
    RoomAbove(base);
    A.UnsignedAdd(base, offset);
  }

  lemma OffsetEnds(offset: bv32, size: nat)
    requires WindowOffset(offset, size) && (size == 1 || size == 2 || size == 4)
    ensures Unsigned(offset) + size <= 64
  {
    hide Unsigned;
    OffsetLimits();
    LastOffset(offset, size);
    A.UnsignedLess(if size == 1 then 63 else if size == 2 then 62 else 60, offset);
  }

  lemma LastOffset(offset: bv32, size: nat)
    requires WindowOffset(offset, size) && (size == 1 || size == 2 || size == 4)
    ensures offset <= if size == 1 then 63 else if size == 2 then 62 else 60
  {
  }

  lemma OffsetLimits()
    ensures Unsigned(63) == 63 && Unsigned(62) == 62 && Unsigned(60) == 60
  {
  }

  lemma RoomAbove(base: bv32)
    requires DataBase(base)
    ensures Unsigned(base) + 64 <= 0x1_0000_0000
  {
    BaseLimit(base);
    hide Unsigned, DataBase, A.Complement;
    OffsetLimits();
    A.UnsignedComplement(63);
    A.UnsignedLess(A.Complement(63), base);
  }

  lemma BaseLimit(base: bv32)
    requires DataBase(base)
    ensures base <= A.Complement(63)
  {
  }

  lemma TameStep(m: Machine, p: Parcel, base: bv32)
    requires m.Running() && FetchAt(m.arch.memory, m.arch.pc) == Success((p.value, p.Length()))
    requires Decode(p).Success? && Tame(Decode(p).value)
    requires BasesSet(m.arch.regs, base) && DataBase(base)
    ensures TameStepResult(m, Step(m), p, base) && TameItem(StepItem(m), base)
  {
    hide FetchAt, Execute, Decode, Tame, BasesSet, SameBelow, StaysInWindow, Unsigned, Add32, StoreWidth, DataBase;
    ExecuteParcelTame(p, m.arch, base);
    ClearX0Keeps(Execute(m.arch, p.value, p.Length()).arch.regs, base);
  }

  // ---------------------------------------------------------------- straight-line runs

  /** The rest of the program lies at pc, below the data window. */
  ghost predicate Placed(m: Machine, ps: seq<Parcel>, base: bv32) {
    && m.arch.pc & 1 == 0
    && Holds(m.arch.memory, Unsigned(m.arch.pc), Flatten(ps))
    && Unsigned(m.arch.pc) + |Flatten(ps)| <= Unsigned(base)
  }

  predicate TameParcel(p: Parcel) {
    p.Proper() && Decode(p).Success? && Tame(Decode(p).value)
  }

  lemma UnsignedRange(a: bv32)
    ensures Unsigned(a) <= 0xFFFF_FFFF
  {
    hide Unsigned;
    UnsignedMaximum();
    if a != MAX_WORD {
      NoneAboveMaximum(a);
      UnsignedMonotone(a, MAX_WORD);
    }
  }

  lemma NoneAboveMaximum(a: bv32)
    requires a != MAX_WORD
    ensures Below(a, MAX_WORD)
  {
  }

  /** The bytes of a placed program survive a change of memory above it. */
  lemma HoldsKept(before: Memory, after: Memory, address: int, bytes: seq<bv8>, limit: int)
    requires Holds(before, address, bytes) && address + |bytes| <= limit && SameBelow(before, after, limit)
    ensures Holds(after, address, bytes)
  {
  }

  /** Stepping over the first parcel leaves the rest of the program in place. */
  lemma PlacedRest(m: Machine, next: Machine, ps: seq<Parcel>, base: bv32)
    requires |ps| >= 2 && Placed(m, ps, base)
    requires next.arch.pc == Add32(m.arch.pc, ps[0].Length()) &&
             SameBelow(m.arch.memory, next.arch.memory, Unsigned(base))
    ensures Placed(next, ps[1..], base)
  {
    hide Unsigned, Add32, SameBelow, Holds, ParcelBytes;
    var p, rest := ps[0], ps[1..];
    assert Flatten(ps) == ParcelBytes(p) + Flatten(rest);
    RestNotEmpty(rest);
    UnsignedRange(base);
    HoldsSplit(m.arch.memory, Unsigned(m.arch.pc), ParcelBytes(p), Flatten(rest));
    AdvancePast(m.arch.pc, p);
    NextEven(m.arch.pc, p);
    HoldsKept(m.arch.memory, next.arch.memory, Unsigned(next.arch.pc), Flatten(rest), Unsigned(base));
  }

  lemma RestNotEmpty(ps: seq<Parcel>)
    requires ps != []
    ensures |Flatten(ps)| >= 2
  {
  }

  lemma PlacedFetch(m: Machine, ps: seq<Parcel>, base: bv32)
    requires ps != [] && ps[0].Proper() && Placed(m, ps, base)
    ensures FetchAt(m.arch.memory, m.arch.pc) == Success((ps[0].value, ps[0].Length()))
  {
    hide Unsigned, FetchAt, Holds, ParcelBytes;
    assert Flatten(ps) == ParcelBytes(ps[0]) + Flatten(ps[1..]);
    HoldsSplit(m.arch.memory, Unsigned(m.arch.pc), ParcelBytes(ps[0]), Flatten(ps[1..]));
    FetchParcel(m.arch.memory, m.arch.pc, ps[0]);
  }

  /** A run over tame parcels followed by more program: no trap, both bases kept at every point, every
      access in the window, and the rest still in place. */
  lemma {:induction false} TameRun(m: Machine, ps: seq<Parcel>, rest: seq<Parcel>, base: bv32)
    requires m.Running() && Placed(m, ps + rest, base) && rest != []
    requires forall p :: p in ps ==> TameParcel(p)
    requires BasesSet(m.arch.regs, base) && DataBase(base)
    ensures var end := Run(m, |ps|);
      end.Running() && Placed(end, rest, base) && BasesSet(end.arch.regs, base)
    ensures |Items(m, |ps|)| == |ps|
    ensures forall item :: item in Items(m, |ps|) ==> TameItem(item, base)
    ensures forall k :: 0 <= k <= |ps| ==> BasesSet(Run(m, k).arch.regs, base)
    decreases |ps|
  {
    hide Step, StepItem, BasesSet, DataBase, Placed, TameItem, Decode, Tame, Parcel.Proper;
    if ps == [] {
      assert ps + rest == rest;
    } else {
      var next := Step(m);
      assert (ps + rest)[1..] == ps[1..] + rest && (ps + rest)[0] == ps[0];
      assert ps[0] in ps && TameParcel(ps[0]);
      PlacedFetch(m, ps + rest, base);
      TameStep(m, ps[0], base);
      PlacedRest(m, next, ps + rest, base);
      TameRun(next, ps[1..], rest, base);
      forall k | 0 <= k <= |ps|
        ensures BasesSet(Run(m, k).arch.regs, base)
      {
        if k > 0 {
          assert Run(m, k) == Run(next, k - 1);
        }
      }
    }
  }

  // ---------------------------------------------------------------- loading a constant

  /** The upper part of a constant that does not fit a 12-bit immediate, and what is left of it. */
  function UpperPart(value: bv32): bv32 {
    (value + 0x800) & 0xFFFF_F000
  }

  function LowerPart(value: bv32): bv32 {
    (value - UpperPart(value)) & 0xFFF
  }

  /** What load_u32_constant appends. */
  function ConstantParcels(reg: bv32, value: bv32): seq<Parcel> {
    if value <= 0x7FF then [Long(IType(value, 0, 0, reg, 0x13))]
    else if LowerPart(value) != 0 then
      [Long(UType(UpperPart(value), reg, 0x37)), Long(IType(LowerPart(value), reg, 0, reg, 0x13))]
    else [Long(UType(UpperPart(value), reg, 0x37))]
  }

  /** The parts add up to the value, the lower one as a signed 12-bit number. */
  lemma PartsAddUp(value: bv32)
    ensures Add32(UpperPart(value), Sext(LowerPart(value), 12)) == value
    ensures LowerPart(value) == 0 ==> UpperPart(value) == value
    ensures UpperPart(value) & 0xFFF == 0
  {
  }

  lemma LowerFits(value: bv32)
    ensures Fits(Sext(LowerPart(value), 12), 12)
    ensures Sext(LowerPart(value), 12) & 0xFFF == LowerPart(value)
  {
  }

  lemma SmallFits(value: bv32)
    requires value <= 0x7FF
    ensures Fits(value, 12)
  {
  }

  lemma IMaskedImmediate(a: bv32, b: bv32, rs1: bv32, rd: bv32)
    requires a & 0xFFF == b & 0xFFF
    ensures IType(a, rs1, 0, rd, 0x13) == IType(b, rs1, 0, rd, 0x13)
  {
  }

  lemma LowMasked(value: bv32)
    ensures LowerPart(value) & 0xFFF == LowerPart(value)
  {
  }

  lemma LongEncodings(reg: bv32, imm: bv32, rs1: bv32)
    ensures Long(IType(imm, rs1, 0, reg, 0x13)).Proper() && Long(UType(imm, reg, 0x37)).Proper()
  {
  }

  /** addi reg, rs1, imm, however the immediate's upper bits are given. */
  lemma AddImmediateDecodes(reg: bv32, rs1: bv32, given: bv32, imm: bv32)
    requires reg < 16 && rs1 < 16 && Fits(imm, 12) && given & 0xFFF == imm & 0xFFF
    ensures var p := Long(IType(given, rs1, 0, reg, 0x13));
      p.Proper() && Decode(p) == Success(OpImm(Add, reg, rs1, imm))
  {
    hide IType, Decode32, Parcel.Proper;
    LongEncodings(reg, given, rs1);
    IMaskedImmediate(given, imm, rs1, reg);
    DecodeEncode(OpImm(Add, reg, rs1, imm));
  }

  lemma LuiDecodes(reg: bv32, imm: bv32)
    requires reg < 16 && imm & 0xFFF == 0
    ensures var p := Long(UType(imm, reg, 0x37)); p.Proper() && Decode(p) == Success(Lui(reg, imm))
  {
    hide UType, Decode32, Parcel.Proper;
    LongEncodings(reg, imm, 0);
    DecodeEncode(Lui(reg, imm));
  }

  /** The value a LUI or an ADDI gives its destination. */
  function PlainValue(i: Instr, regs: RegFile): bv32
    requires (i.Lui? || i.OpImm?) && Operands(i)
  {
    if i.Lui? then i.imm else Alu(i.alu, Reg(regs, i.rs1), i.imm)
  }

  lemma PlainExec(i: Instr, s: Arch)
    requires (i.Lui? || i.OpImm?) && Operands(i)
    ensures Exec(i, s, 4) == Retire(s, Add32(s.pc, 4), i.rd, PlainValue(i, s.regs))
  {
    hide Add32, Reg, Alu, Retire;
  }

  lemma RetireState(s: Arch, next: bv32, rd: bv32, value: bv32)
    requires 0 < rd < 16 && s.regs[0] == 0
    ensures var o := Retire(s, next, rd, value);
      o.Done? && o.arch == s.(pc := next, regs := SetReg(s.regs, rd, value)) && o.effect.memAddr.None? &&
          o.effect.memWrite.None?
    ensures SetReg(s.regs, rd, value)[0] == 0 && SetReg(s.regs, rd, value)[0 := 0] == SetReg(s.regs, rd, value)
  {
    SetRegKeepsZero(s.regs, rd, value);
    hide SetReg;
  }

  /** One step over a fetched LUI or ADDI. */
  lemma PlainStep(m: Machine, p: Parcel, i: Instr, base: bv32)
    requires m.Running() && FetchAt(m.arch.memory, m.arch.pc) == Success((p.value, p.Length()))
    requires p.Long? && Decode(p) == Success(i) && (i.Lui? || i.OpImm?) && Operands(i)
    requires 0 < i.rd < 16 && m.arch.regs[0] == 0
    ensures var next := Step(m);
      && next.Running() && next.arch.pc == Add32(m.arch.pc, 4) && next.arch.memory == m.arch.memory
      && next.arch.regs == SetReg(m.arch.regs, i.rd, PlainValue(i, m.arch.regs)) && next.arch.regs[0] == 0
    ensures TameItem(StepItem(m), base)
  {
    hide FetchAt, Decode32, Exec, Add32, Reg, SetReg, Alu, Retire, PlainValue, StoreWidth;
    PlainExec(i, m.arch);
    RetireState(m.arch, Add32(m.arch.pc, 4), i.rd, PlainValue(i, m.arch.regs));
  }

  /** What running the constant loader leaves: the value in its register and all else as before. */
  ghost predicate ConstantLoaded(m: Machine, end: Machine, count: nat, reg: bv32, value: bv32, rest: seq<Parcel>,
                                 base: bv32)
    requires reg < 16
  {
    && end.Running() && Placed(end, rest, base) && end.arch.memory == m.arch.memory
    && end.arch.regs == SetReg(m.arch.regs, reg, value) && end.arch.regs[0] == 0
    && |Items(m, count)| == count
    && (forall item :: item in Items(m, count) ==> TameItem(item, base))
  }

  lemma SameBelowSelf(memory: Memory, limit: int)
    ensures SameBelow(memory, memory, limit)
  {
  }

  /** One plain step over the first of the placed parcels. */
  lemma PlacedPlainStep(m: Machine, i: Instr, ps: seq<Parcel>, base: bv32)
    requires m.Running() && Placed(m, ps, base) && |ps| >= 2
    requires ps[0].Long? && ps[0].Proper() && Decode(ps[0]) == Success(i) && (i.Lui? || i.OpImm?) && Operands(i)
    requires 0 < i.rd < 16 && m.arch.regs[0] == 0
    ensures var next := Step(m);
      && next.Running() && Placed(next, ps[1..], base) && next.arch.memory == m.arch.memory
      && next.arch.regs == SetReg(m.arch.regs, i.rd, PlainValue(i, m.arch.regs)) && next.arch.regs[0] == 0
    ensures TameItem(StepItem(m), base)
  {
    hide Step, StepItem, Placed, Decode, SetReg, PlainValue, TameItem, Parcel.Proper;
    PlacedFetch(m, ps, base);
    PlainStep(m, ps[0], i, base);
    SameBelowSelf(m.arch.memory, Unsigned(base));
    PlacedRest(m, Step(m), ps, base);
  }

  lemma RunOne(m: Machine)
    requires m.Running()
    ensures Run(m, 1) == Step(m) && Items(m, 1) == [StepItem(m)]
  {
    hide Step, StepItem;
    assert Run(Step(m), 0) == Step(m);
    assert Items(Step(m), 0) == [];
  }

  lemma RunTwo(m: Machine)
    requires m.Running() && Step(m).Running()
    ensures Run(m, 2) == Step(Step(m)) && Items(m, 2) == [StepItem(m), StepItem(Step(m))]
  {
    hide Step, StepItem;
    RunOne(Step(m));
    assert Run(m, 2) == Run(Step(m), 1);
    assert Items(m, 2) == [StepItem(m)] + Items(Step(m), 1);
  }

  lemma SetTwice(regs: RegFile, reg: bv32, first: bv32, second: bv32)
    requires 0 < reg < 16
    ensures SetReg(SetReg(regs, reg, first), reg, second) == SetReg(regs, reg, second)
    ensures Reg(SetReg(regs, reg, first), reg) == first && Reg(regs, 0) == 0
  {
    assert (reg as int) as bv32 == reg;
  }

  /** load_u32_constant leaves any 32-bit value in its register, in one step or two. */
  lemma ConstantRun(m: Machine, reg: bv32, value: bv32, rest: seq<Parcel>, base: bv32)
    requires m.Running() && 0 < reg < 16 && m.arch.regs[0] == 0 && rest != []
    requires Placed(m, ConstantParcels(reg, value) + rest, base)
    ensures var count := |ConstantParcels(reg, value)|;
      ConstantLoaded(m, Run(m, count), count, reg, value, rest, base)
  {
    hide LowerPart, UpperPart, Placed, ConstantLoaded, Run;
    if value <= 0x7FF {
      SmallConstant(m, reg, value, rest, base);
    } else if LowerPart(value) == 0 {
      UpperConstant(m, reg, value, rest, base);
    } else {
      SplitConstant(m, reg, value, rest, base);
    }
  }

  lemma SmallConstant(m: Machine, reg: bv32, value: bv32, rest: seq<Parcel>, base: bv32)
    requires m.Running() && 0 < reg < 16 && m.arch.regs[0] == 0 && rest != [] && value <= 0x7FF
    requires Placed(m, [Long(IType(value, 0, 0, reg, 0x13))] + rest, base)
    ensures ConstantLoaded(m, Run(m, 1), 1, reg, value, rest, base)
  {
    hide Step, StepItem, Placed, Decode, Reg, SetReg, TameItem, Parcel.Proper, IType, Fits, Run, Items, Add32;
    SmallFits(value);
    AddImmediateDecodes(reg, 0, value, value);
    var ps := [Long(IType(value, 0, 0, reg, 0x13))] + rest;
    assert ps[1..] == rest;
    PlacedPlainStep(m, OpImm(Add, reg, 0, value), ps, base);
    AddToZero(m.arch, value);
    RunOne(m);
  }

  lemma UpperConstant(m: Machine, reg: bv32, value: bv32, rest: seq<Parcel>, base: bv32)
    requires m.Running() && 0 < reg < 16 && m.arch.regs[0] == 0 && rest != [] && LowerPart(value) == 0
    requires Placed(m, [Long(UType(UpperPart(value), reg, 0x37))] + rest, base)
    ensures ConstantLoaded(m, Run(m, 1), 1, reg, value, rest, base)
  {
    hide Step, StepItem, Placed, Decode, Reg, SetReg, TameItem, Parcel.Proper, UType, Run, Items, UpperPart, LowerPart;
    PartsAddUp(value);
    LuiDecodes(reg, UpperPart(value));
    var ps := [Long(UType(UpperPart(value), reg, 0x37))] + rest;
    assert ps[1..] == rest;
    PlacedPlainStep(m, Lui(reg, UpperPart(value)), ps, base);
    RunOne(m);
  }

  lemma SplitConstant(m: Machine, reg: bv32, value: bv32, rest: seq<Parcel>, base: bv32)
    requires m.Running() && 0 < reg < 16 && m.arch.regs[0] == 0 && rest != []
    requires Placed(m, [Long(UType(UpperPart(value), reg, 0x37)), Long(IType(LowerPart(value), reg, 0, reg, 0x13))] +
             rest, base)
    ensures ConstantLoaded(m, Run(m, 2), 2, reg, value, rest, base)
  {
    hide Step, StepItem, Placed, Decode, Reg, SetReg, TameItem, Parcel.Proper, IType, UType, Fits, Run, Items;
    hide UpperPart, LowerPart, Add32, Sext;
    var upper, lower := UpperPart(value), Sext(LowerPart(value), 12);
    PartsAddUp(value);
    LowerFits(value);
    LowMasked(value);
    LuiDecodes(reg, upper);
    AddImmediateDecodes(reg, reg, LowerPart(value), lower);
    var ps := [Long(UType(upper, reg, 0x37)), Long(IType(LowerPart(value), reg, 0, reg, 0x13))] + rest;
    assert ps[1..][1..] == rest;
    PlacedPlainStep(m, Lui(reg, upper), ps, base);
    PlacedPlainStep(Step(m), OpImm(Add, reg, reg, lower), ps[1..], base);
    SetTwice(m.arch.regs, reg, upper, value);
    RunTwo(m);
  }

  // ---------------------------------------------------------------- whole programs

  const DATA_REGS: seq<bv32> := [1, 3, 4, 5, 6, 7, 9, 10, 11, 12, 13, 14, 15]

  /** The drawn initial values are 6-bit numbers, one for each data register. */
  predicate InitsInRange(inits: seq<bv32>) {
    |inits| == |DATA_REGS| && forall imm :: imm in inits ==> Fits(imm, 6)
  }

  function InitParcels(inits: seq<bv32>): seq<Parcel>
    requires |inits| == |DATA_REGS|
  {
    seq(|inits|, k requires 0 <= k < |inits| => Long(IType(inits[k], 0, 0, DATA_REGS[k], 0x13)))
  }

  predicate AllInRange(draws: seq<Draw>) {
    forall d :: d in draws ==> InRange(d)
  }

  function DrawParcels(draws: seq<Draw>): seq<Parcel>
    requires AllInRange(draws)
  {
    seq(|draws|, k requires 0 <= k < |draws| => Emitted(draws[k]))
  }

  function SetupParcels(base: bv32): seq<Parcel> {
    ConstantParcels(2, base) + ConstantParcels(8, base)
  }

  function BodyParcels(inits: seq<bv32>, draws: seq<Draw>): seq<Parcel>
    requires InitsInRange(inits) && AllInRange(draws)
  {
    InitParcels(inits) + DrawParcels(draws)
  }

  /** Everything random_rv32ec_program appends, in order. */
  function ProgramParcels(base: bv32, inits: seq<bv32>, draws: seq<Draw>): seq<Parcel>
    requires InitsInRange(inits) && AllInRange(draws)
  {
    SetupParcels(base) + BodyParcels(inits, draws) + [Short(CEbreak())]
  }

  function MaxSteps(base: bv32, draws: seq<Draw>): nat {
    |draws| + |DATA_REGS| + |SetupParcels(base)| + 2
  }

  /** The registers get their first values from x0. */
  lemma InitDecodes(inits: seq<bv32>, k: nat)
    requires InitsInRange(inits) && k < |DATA_REGS|
    ensures Decode(InitParcels(inits)[k]) == Success(OpImm(Add, DATA_REGS[k], 0, inits[k]))
  {
    hide Fits, Decode, IType;
    assert inits[k] in inits;
    NarrowFits(inits[k]);
    AddImmediateDecodes(DATA_REGS[k], 0, inits[k], inits[k]);
  }

  /** Steps to spare: one for the breakpoint and one more. The two bases take one step each when they
      are small or a multiple of a page, and two otherwise. */
  lemma StepsAre(base: bv32, draws: seq<Draw>)
    ensures MaxSteps(base, draws) ==
            |draws| + 13 + (if base <= 2047 || base % 4096 == 0 then 2 else 4) + 2
  {
    LowerIsRemainder(base);
    hide LowerPart, UpperPart, IType, UType;
  }

  lemma LowerIsRemainder(value: bv32)
    ensures LowerPart(value) == value % 4096
  {
  }

  lemma {:induction false} FlattenConcat(a: seq<Parcel>, b: seq<Parcel>)
    ensures Flatten(a + b) == Flatten(a) + Flatten(b)
  {
    if a == [] {
      assert a + b == b;
    } else {
      assert (a + b)[0] == a[0] && (a + b)[1..] == a[1..] + b;
      FlattenConcat(a[1..], b);
    }
  }

  lemma FlattenOne(p: Parcel)
    ensures Flatten([p]) == ParcelBytes(p)
  {
  }

  method Append(image: ProgramImage, p: Parcel, ghost before: seq<Parcel>)
    requires image.bytes == Flatten(before) && p.Proper()
    modifies image
    ensures image.bytes == Flatten(before + [p])
  {
    FlattenConcat(before, [p]);
    FlattenOne(p);
    ProperMasked(p);
    match p {
      case Short(value) => image.Add16(value);
      case Long(value) => image.Add32(value);
    }
  }

  lemma ProperMasked(p: Parcel)
    requires p.Proper()
    ensures p.Short? ==> p.value & 0xFFFF == p.value
  {
  }

  lemma ConstantProper(reg: bv32, value: bv32)
    ensures forall p :: p in ConstantParcels(reg, value) ==> p.Proper()
  {
    LongEncodings(reg, value, 0);
    LongEncodings(reg, LowerPart(value), reg);
    LongEncodings(reg, UpperPart(value), 0);
    hide IType, UType, UpperPart, LowerPart, Parcel.Proper;
  }

  /** load_u32_constant: one or two instructions, and how many. */
  method LoadU32Constant(image: ProgramImage, reg: bv32, value: bv32, ghost before: seq<Parcel>) returns (steps: nat)
    requires image.bytes == Flatten(before)
    modifies image
    ensures image.bytes == Flatten(before + ConstantParcels(reg, value)) && steps == |ConstantParcels(reg, value)|
  {
    ConstantProper(reg, value);
    hide IType, UType, Flatten, UpperPart, LowerPart, Parcel.Proper;
    if value <= 0x7FF {
      Append(image, Long(IType(value, 0, 0, reg, 0x13)), before);
      return 1;
    }
    var upper := UpperPart(value);
    var lower := LowerPart(value);
    var first := Long(UType(upper, reg, 0x37));
    Append(image, first, before);
    if lower != 0 {
      var second := Long(IType(lower, reg, 0, reg, 0x13));
      Append(image, second, before + [first]);
      assert before + [first] + [second] == before + [first, second];
      return 2;
    }
    return 1;
  }

  method EmitInits(image: ProgramImage, inits: seq<bv32>, ghost before: seq<Parcel>)
    requires image.bytes == Flatten(before) && InitsInRange(inits)
    modifies image
    ensures image.bytes == Flatten(before + InitParcels(inits))
  {
    hide Flatten, Parcel.Proper, Fits, IType;
    ghost var all := InitParcels(inits);
    assert before + all[..0] == before;
    for k := 0 to |inits|
      invariant image.bytes == Flatten(before + all[..k])
    {
      LongEncodings(DATA_REGS[k], inits[k], 0);
      Append(image, Long(IType(inits[k], 0, 0, DATA_REGS[k], 0x13)), before + all[..k]);
      assert before + all[..k] + [all[k]] == before + all[..k + 1];
    }
    assert all[..|inits|] == all;
  }

  method EmitDraws(image: ProgramImage, draws: seq<Draw>, ghost before: seq<Parcel>)
    requires image.bytes == Flatten(before) && AllInRange(draws)
    modifies image
    ensures image.bytes == Flatten(before + DrawParcels(draws))
  {
    hide Flatten, Parcel.Proper, InRange, Emitted;
    ghost var all := DrawParcels(draws);
    assert before + all[..0] == before;
    for k := 0 to |draws|
      invariant image.bytes == Flatten(before + all[..k])
    {
      assert draws[k] in draws;
      DrawDecodes(draws[k]);
      Append(image, Emitted(draws[k]), before + all[..k]);
      assert before + all[..k] + [all[k]] == before + all[..k + 1];
    }
    assert all[..|draws|] == all;
  }

  method RandomProgram(base: bv32, inits: seq<bv32>, draws: seq<Draw>) returns (image: ProgramImage, maxSteps: nat)
    requires InitsInRange(inits) && AllInRange(draws)
    ensures fresh(image) && image.bytes == Flatten(ProgramParcels(base, inits, draws)) &&
            maxSteps == MaxSteps(base, draws)
  {
    hide Flatten, ConstantParcels, DrawParcels, AllInRange, CEbreak, Parcel.Proper;
    image := new ProgramImage();
    FlattenNothing();
    ghost var first := ConstantParcels(2, base);
    var setupSteps := LoadU32Constant(image, 2, base, []);
    assert [] + first == first;
    var more := LoadU32Constant(image, 8, base, first);
    setupSteps := setupSteps + more;
    ghost var setup := SetupParcels(base);
    EmitInits(image, inits, setup);
    EmitDraws(image, draws, setup + InitParcels(inits));
    ghost var all := setup + BodyParcels(inits, draws);
    assert setup + InitParcels(inits) + DrawParcels(draws) == all;
    EbreakProper();
    Append(image, Short(CEbreak()), all);
    maxSteps := |draws| + |DATA_REGS| + setupSteps + 2;
  }

  lemma FlattenNothing()
    ensures Flatten([]) == []
  {
  }

  lemma EbreakProper()
    ensures Short(CEbreak()).Proper() && Decode(Short(CEbreak())) == Success(Ebreak)
  {
    hide Decode16, IsCompressed, CCr;
    DecodeCr(1, 0, 0);
  }

  /** A fresh model with the image loaded at address 0. */
  function Boot(bytes: seq<bv8>): Machine {
    Machine(Arch(0, seq(16, _ => 0), LoadWords(map[], 0, Grouped(Padded(bytes))), map[]), false, false, 0, [])
  }

  method RunProgram(image: ProgramImage, maxSteps: nat) returns (model: Rv32ecModel)
    ensures fresh(model) && model.Abstract() == Run(Boot(image.bytes), maxSteps)
  {
    hide Run, LoadWords, Grouped, Padded;
    model := new Rv32ecModel(0);
    var words := image.Words();
    model.LoadImage(words, 0);
    model.RunUpTo(maxSteps);
  }

  // ---------------------------------------------------------------- every program runs to its breakpoint

  lemma {:induction false} ItemsCompose(m: Machine, a: nat, b: nat)
    ensures Items(m, a + b) == Items(m, a) + Items(Run(m, a), b)
    decreases a
  {
    hide Step, StepItem;
    if a > 0 {
      if m.Running() {
        ItemsCompose(Step(m), a - 1, b);
      } else {
        StoppedRun(m, a);
      }
    }
  }

  /** The final C.EBREAK traps and changes nothing. */
  lemma EbreakStep(m: Machine, base: bv32)
    requires m.Running() && Placed(m, [Short(CEbreak())], base) && m.arch.regs[0] == 0
    ensures var end := Step(m);
      end.halted && end.arch == m.arch && StepItem(m).cause == Some(EbreakTrap) && StepItem(m).effect == NO_EFFECT
  {
    hide FetchAt, Decode16, Placed, CEbreak, Parcel.Proper;
    EbreakProper();
    PlacedFetch(m, [Short(CEbreak())], base);
    ClearX0(m.arch.regs);
  }

  lemma BodyTame(inits: seq<bv32>, draws: seq<Draw>)
    requires InitsInRange(inits) && AllInRange(draws)
    ensures forall p :: p in BodyParcels(inits, draws) ==> TameParcel(p)
  {
    forall p | p in BodyParcels(inits, draws)
      ensures TameParcel(p)
    {
      hide Emitted, Decode, Parcel.Proper, IType, Fits, InRange;
      if p in InitParcels(inits) {
        var k :| 0 <= k < |inits| && p == InitParcels(inits)[k];
        InitTame(inits[k], DATA_REGS[k]);
      } else {
        var k :| 0 <= k < |draws| && p == DrawParcels(draws)[k];
        assert draws[k] in draws;
        DrawDecodes(draws[k]);
      }
    }
  }

  lemma InitTame(imm: bv32, reg: bv32)
    requires Fits(imm, 6) && reg in DATA_REGS
    ensures TameParcel(Long(IType(imm, 0, 0, reg, 0x13)))
  {
    hide IType, Decode, Parcel.Proper, Fits;
    DataRegsAreData(reg);
    NarrowFits(imm);
    AddImmediateDecodes(reg, 0, imm, imm);
  }

  lemma DataRegsAreData(reg: bv32)
    requires reg in DATA_REGS
    ensures DataReg(reg) && reg < 16 && IsReg(0)
  {
  }

  /** Loading puts the program in place below the data window. */
  lemma BootPlaced(ps: seq<Parcel>, base: bv32)
    requires |Flatten(ps)| <= Unsigned(base)
    ensures Placed(Boot(Flatten(ps)), ps, base) && Boot(Flatten(ps)).Running() && Boot(Flatten(ps)).arch.regs[0] == 0
  {
    hide LoadWords, Grouped, Padded, Flatten, Unsigned;
    var bytes := Padded(Flatten(ps));
    LoadedCells(map[], 0, bytes);
    assert bytes == Flatten(ps) + bytes[|Flatten(ps)|..];
    HoldsSplit(LoadWords(map[], 0, Grouped(bytes)), 0, Flatten(ps), bytes[|Flatten(ps)|..]);
    AddNothing(0);
  }

  /** After the setup both base registers hold the base. */
  lemma SetupRun(m: Machine, base: bv32, rest: seq<Parcel>)
    requires m.Running() && m.arch.regs[0] == 0 && rest != [] && Placed(m, SetupParcels(base) + rest, base)
    ensures var count := |SetupParcels(base)|;
      && Run(m, count).Running() && Placed(Run(m, count), rest, base) && BasesSet(Run(m, count).arch.regs, base)
      && Run(m, count).arch.regs[0] == 0
      && |Items(m, count)| == count && (forall item :: item in Items(m, count) ==> TameItem(item, base))
  {
    hide Run, Items, Placed, ConstantParcels, SetReg, Reg, TameItem;
    var first, second := ConstantParcels(2, base), ConstantParcels(8, base);
    assert SetupParcels(base) + rest == first + (second + rest);
    ConstantRun(m, 2, base, second + rest, base);
    var mid := Run(m, |first|);
    ConstantRun(mid, 8, base, rest, base);
    RunComposes(m, |first|, |second|);
    ItemsCompose(m, |first|, |second|);
    SetTwice(m.arch.regs, 2, base, base);
    OtherReg(mid.arch.regs, 8, base, 2);
    SetTwice(mid.arch.regs, 8, base, base);
  }

  /** Every program the generator can emit, loaded at address 0 below its data window, runs in exactly
      setup + 13 + steps + 1 steps: the only trap is the final C.EBREAK, every load and store stays in the
      window, and from the end of the setup on x2 and x8 hold the base at every point. */
  lemma GeneratedProgramRuns(base: bv32, inits: seq<bv32>, draws: seq<Draw>)
    requires InitsInRange(inits) && AllInRange(draws) && DataBase(base)
    requires |Flatten(ProgramParcels(base, inits, draws))| <= Unsigned(base)
    ensures
      var setup := |SetupParcels(base)|;
      var total := setup + |DATA_REGS| + |draws| + 1;
      var m := Boot(Flatten(ProgramParcels(base, inits, draws)));
      var items := Items(m, MaxSteps(base, draws));
      && |items| == total && 1 <= total < MaxSteps(base, draws)
      && Run(m, MaxSteps(base, draws)).halted && Run(m, MaxSteps(base, draws)) == Run(m, total)
      && items[total - 1].cause == Some(EbreakTrap) && items[total - 1].effect == NO_EFFECT
      && (forall k :: 0 <= k < total - 1 ==> TameItem(items[k], base))
      && (forall k :: setup <= k <= total ==> BasesSet(Run(m, k).arch.regs, base))
  {
    hide Run, Items, Step, StepItem, Placed, Flatten, Boot, TameItem, BasesSet, SetupParcels, InitParcels, DrawParcels,
         TameParcel;
    hide InitsInRange, AllInRange, DataBase, Unsigned, CEbreak;
    var body, last := BodyParcels(inits, draws), [Short(CEbreak())];
    var ps := ProgramParcels(base, inits, draws);
    var m := Boot(Flatten(ps));
    var setup := |SetupParcels(base)|;
    BodyLength(inits, draws);
    assert ps == SetupParcels(base) + (body + last);
    BootPlaced(ps, base);
    SetupRun(m, base, body + last);
    var ready := Run(m, setup);
    BodyTame(inits, draws);
    TameRun(ready, body, last, base);
    RunKeepsX0(ready, |body|);
    EbreakStep(Run(ready, |body|), base);
    ThreePhases(m, setup, |body|);
    BasesThroughout(m, setup, |body|, base);
    var items := Items(m, setup + |body| + 2);
    var first, second := Items(m, setup), Items(ready, |body|);
    forall k | 0 <= k < |items| - 1
      ensures TameItem(items[k], base)
    {
      if k < setup {
        assert items[k] == first[k] && first[k] in first;
      } else {
        assert items[k] == second[k - setup] && second[k - setup] in second;
      }
    }
  }

  /** Generate a program, and run it on a fresh model to its breakpoint. */
  method RunRandomProgram(base: bv32, inits: seq<bv32>, draws: seq<Draw>) returns (model: Rv32ecModel)
    requires InitsInRange(inits) && AllInRange(draws) && DataBase(base)
    requires |Flatten(ProgramParcels(base, inits, draws))| <= Unsigned(base)
    ensures fresh(model)
    ensures var end := model.Abstract(); var total := |SetupParcels(base)| + |DATA_REGS| + |draws| + 1;
            && end.halted && |end.trace| == total && BasesSet(end.arch.regs, base)
            && end.trace[total - 1].cause == Some(EbreakTrap) && end.trace[total - 1].effect == NO_EFFECT
            && forall k :: 0 <= k < total - 1 ==> TameItem(end.trace[k], base)
  {
    hide InitsInRange, AllInRange, DataBase, Unsigned, Flatten, ProgramParcels, Run, Items, BasesSet, TameItem,
         SetupParcels, LoadWords;
    var image, maxSteps := RandomProgram(base, inits, draws);
    ghost var start := Boot(image.bytes);
    model := RunProgram(image, maxSteps);
    GeneratedProgramRuns(base, inits, draws);
    RunIsLogged(start, maxSteps);
    assert [] + Items(start, maxSteps) == Items(start, maxSteps);
  }

  lemma {:induction false} RunKeepsX0(m: Machine, count: nat)
    requires m.arch.regs[0] == 0
    ensures Run(m, count).arch.regs[0] == 0
    decreases count
  {
    hide Step;
    if !m.Running() {
      StoppedRun(m, count);
    } else if count > 0 {
      StepIsLogged(m);
      RunKeepsX0(Step(m), count - 1);
    }
  }

  /** Two stretches, one more step that halts, and a step that no longer happens. */
  lemma ThreePhases(m: Machine, a: nat, b: nat)
    requires var final := Run(Run(m, a), b); final.Running() && Step(final).halted
    ensures var final := Run(Run(m, a), b);
      && Run(m, a + b + 1) == Step(final) && Run(m, a + b + 2) == Step(final)
      && Items(m, a + b + 2) == Items(m, a) + Items(Run(m, a), b) + [StepItem(final)]
  {
    hide Step, StepItem;
    var final := Run(Run(m, a), b);
    RunComposes(m, a, b);
    RunComposes(m, a + b, 1);
    RunComposes(m, a + b, 2);
    ItemsCompose(m, a, b);
    ItemsCompose(m, a + b, 2);
    RunOne(final);
    assert Run(final, 2) == Run(Step(final), 1);
    StoppedRun(Step(final), 1);
    assert Items(Step(final), 1) == [];
    assert Items(final, 2) == [StepItem(final)] + Items(Step(final), 1);
  }

  lemma BasesThroughout(m: Machine, a: nat, b: nat, base: bv32)
    requires forall k :: 0 <= k <= b ==> BasesSet(Run(Run(m, a), k).arch.regs, base)
    requires Run(m, a + b + 1).arch == Run(Run(m, a), b).arch
    ensures forall k :: a <= k <= a + b + 1 ==> BasesSet(Run(m, k).arch.regs, base)
  {
    hide Run, BasesSet;
    forall k | a <= k <= a + b + 1
      ensures BasesSet(Run(m, k).arch.regs, base)
    {
      if k <= a + b {
        RunComposes(m, a, k - a);
      }
    }
  }

  lemma BodyLength(inits: seq<bv32>, draws: seq<Draw>)
    requires InitsInRange(inits) && AllInRange(draws)
    ensures |BodyParcels(inits, draws)| == |DATA_REGS| + |draws|
  {
  }

  lemma {:induction false} FlattenBound(ps: seq<Parcel>)
    ensures |Flatten(ps)| <= 4 * |ps|
  {
    hide ByteOf;
    if ps != [] {
      FlattenBound(ps[1..]);
    }
  }

  lemma UnsignedDefaultBase()
    ensures Unsigned(0x400) == 0x400
  {
  }

  /** At the default data base every program of up to 240 steps fits below its data window. */
  lemma DefaultBaseFits(inits: seq<bv32>, draws: seq<Draw>)
    requires InitsInRange(inits) && AllInRange(draws) && |draws| <= 240
    ensures DataBase(0x400) && |Flatten(ProgramParcels(0x400, inits, draws))| <= Unsigned(0x400)
  {
    hide Flatten, Unsigned, IType, UType, Emitted, InRange, CEbreak;
    UnsignedDefaultBase();
    BodyLength(inits, draws);
    assert |SetupParcels(0x400)| == 2;
    FlattenBound(ProgramParcels(0x400, inits, draws));
  }
}
