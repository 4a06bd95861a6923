/** What each instruction computes, said in numbers. Registers, addresses and memory cells are read as
    unsigned numbers here, and the operations are those of the integers. */
module Meaning {
  import opened Words
  import opened Isa
  import opened Decoder
  import opened Machine
  import opened Numbers
  import opened Powers
  import opened Arithmetic

  /** The number in a register. */
  function Number(s: Arch, r: bv32): nat
    requires r < 16
  {
    if r == 0 then 0 else Unsigned(s.regs[r as int])
  }

  /** The number in a memory cell. */
  function Cell(memory: Memory, a: int): nat {
    if a in memory then Unsigned(memory[a] as bv32) else 0
  }

  function Wrap(n: int): nat {
    n % MODULUS
  }

  // ---------------------------------------------------------------- register operations

  function AluNumber(op: AluOp, a: nat, b: nat): int {
    match op
    case Add => Wrap(a + b)
    case Sub => Wrap(a - b)
    case Sll => Wrap(a * Pow2(b % 32))
    case Slt => if SignedOf(a) < SignedOf(b) then 1 else 0
    case Sltu => if a < b then 1 else 0
    case Xor => Bitwise(Differ, a, b)
    case Srl => a / Pow2(b % 32)
    case Sra => Wrap(SignedOf(a) / Pow2(b % 32))
    case Or => Bitwise(Either, a, b)
    case And => Bitwise(Both, a, b)
  }

  lemma AmountIs(b: bv32)
    ensures b & 0x1F < 32 && Unsigned(b & 0x1F) == Unsigned(b) % 32
  {
    SmallNumbers();
    AmountMask(b);
    hide Unsigned, And32, Ones;
    UnsignedMask(b, 31);
  }

  lemma AmountMask(b: bv32)
    ensures b & 0x1F < 32 && b & 0x1F == And32(b, 31) && Ones(31)
  {
  }

  lemma UnsignedBit(c: bool)
    ensures Unsigned(if c then 1 else 0) == if c then 1 else 0
  {
    SmallNumbers();
  }

  lemma SignedBack(a: bv32)
    ensures Unsigned(a) == Wrap(Signed(a))
  {
    UnsignedBelow(a);
    hide Unsigned;
  }

  /** The result of every register operation. */
  lemma AluIs(op: AluOp, a: bv32, b: bv32)
    ensures Unsigned(Alu(op, a, b)) == AluNumber(op, Unsigned(a), Unsigned(b))
  {
    AmountIs(b);
    UnsignedBit(SignedLess(a, b));
    UnsignedBit(a < b);
    hide Unsigned, Pow2, SignedOf, Bitwise, Wrap, SignedLess, ShiftLeft, ShiftRight, ShiftRightArithmetic;
    match op
    case Add =>
      AddIs(a, b);
    case Sub =>
      SubIs(a, b);
    case Sll =>
      SllIs(a, b & 0x1F);
    case Slt =>
      SignedLessIs(a, b);
    case Sltu =>
      UnsignedLess(a, b);
    case Xor =>
      UnsignedBitwise(Differ, a, b);
    case Srl =>
      UnsignedShiftRight(a, b & 0x1F);
    case Sra =>
      SraIs(a, b & 0x1F);
    case Or =>
      UnsignedBitwise(Either, a, b);
    case And =>
      UnsignedBitwise(Both, a, b);
  }

  lemma AddIs(a: bv32, b: bv32)
    ensures Unsigned(Add32(a, b)) == Wrap(Unsigned(a) + Unsigned(b))
  {
    hide Unsigned, Add32;
    UnsignedAdd(a, b);
  }

  lemma SubIs(a: bv32, b: bv32)
    ensures Unsigned(Sub32(a, b)) == Wrap(Unsigned(a) - Unsigned(b))
  {
    hide Unsigned, Sub32;
    UnsignedSubtract(a, b);
  }

  lemma SllIs(a: bv32, k: bv32)
    requires k < 32
    ensures Unsigned(ShiftLeft(a, k)) == Wrap(Unsigned(a) * Pow2(Unsigned(k)))
  {
    hide Unsigned, ShiftLeft, Pow2;
    UnsignedShiftLeft(a, k);
  }

  lemma SraIs(a: bv32, k: bv32)
    requires k < 32
    ensures Unsigned(ShiftRightArithmetic(a, k)) == Wrap(SignedOf(Unsigned(a)) / Pow2(Unsigned(k)))
  {
    hide Unsigned, ShiftRightArithmetic, Pow2, SignedOf, Wrap;
    SignedShiftRight(a, k);
    SignedBack(ShiftRightArithmetic(a, k));
  }

  /** The instruction completes behind itself, and leaves n in rd and everything else as it is. */
  ghost predicate Leaves(s: Arch, o: Outcome, length: bv32, rd: bv32, n: int)
    requires rd < 16
  {
    && o.Done? && Unsigned(o.arch.pc) == Wrap(Unsigned(s.pc) + Unsigned(length))
    && Changes(s, o, rd, n)
  }

  /** rd holds n afterwards and is logged with it; x0 stays 0 and is not logged. */
  ghost predicate Changes(s: Arch, o: Outcome, rd: bv32, n: int)
    requires rd < 16 && o.Done?
  {
    && o.arch.memory == s.memory && o.arch.csrs == s.csrs
    && (forall r: bv32 | r < 16 :: Number(o.arch, r) == if r == rd && r != 0 then n else Number(s, r))
    && Logs(o.effect, rd, n)
    && o.effect.memAddr == None && o.effect.memRead == None && o.effect.memWrite == None
  }

  predicate Logs(effect: Effect, rd: bv32, n: int) {
    if rd == 0 then effect.rd == None else effect.rd == Some(rd) && Unsigned(effect.rdData) == n
  }

  lemma RegisterSet(regs: RegFile, rd: bv32, value: bv32, r: bv32)
    requires rd < 16 && r < 16
    ensures SetReg(regs, rd, value)[r as int] == if r == rd && r != 0 then value else regs[r as int]
  {
    assert (rd as int) as bv32 == rd && (r as int) as bv32 == r;
  }

  lemma RegisterRead(s: Arch, r: bv32)
    requires r < 16
    ensures Unsigned(Reg(s.regs, r)) == Number(s, r)
  {
    SmallNumbers();
    hide Unsigned;
  }

  lemma NumbersAfter(s: Arch, t: Arch, rd: bv32, value: bv32)
    requires rd < 16 && t.regs == SetReg(s.regs, rd, value)
    ensures forall r: bv32 | r < 16 :: Number(t, r) == if r == rd && r != 0 then Unsigned(value) else Number(s, r)
  {
    hide Unsigned, SetReg;
    forall r: bv32 | r < 16
      ensures Number(t, r) == if r == rd && r != 0 then Unsigned(value) else Number(s, r)
    {
      RegisterSet(s.regs, rd, value, r);
    }
  }

  lemma RetireChanges(s: Arch, next: bv32, rd: bv32, value: bv32)
    requires rd < 16
    ensures var o := Retire(s, next, rd, value);
            o.Done? && o.arch.pc == next && Changes(s, o, rd, Unsigned(value))
  {
    hide Unsigned, Number, SetReg;
    var o := Retire(s, next, rd, value);
    NumbersAfter(s, o.arch, rd, value);
  }

  lemma RetireLeaves(s: Arch, rd: bv32, value: bv32, length: bv32)
    requires rd < 16
    ensures Leaves(s, Retire(s, Add32(s.pc, length), rd, value), length, rd, Unsigned(value))
  {
    hide Unsigned, Add32, Retire, Changes, Wrap;
    RetireChanges(s, Add32(s.pc, length), rd, value);
    AddIs(s.pc, length);
  }

  lemma OpComputes(s: Arch, op: AluOp, rd: bv32, rs1: bv32, rs2: bv32, length: bv32)
    requires rd < 16 && rs1 < 16 && rs2 < 16
    ensures Leaves(s, Exec(Op(op, rd, rs1, rs2), s, length), length, rd, AluNumber(op, Number(s, rs1), Number(s, rs2)))
  {
    hide Unsigned, Number, Reg, Alu, AluNumber, Add32, Retire, Leaves;
    RegisterRead(s, rs1);
    RegisterRead(s, rs2);
    RetireLeaves(s, rd, Alu(op, Reg(s.regs, rs1), Reg(s.regs, rs2)), length);
    AluIs(op, Reg(s.regs, rs1), Reg(s.regs, rs2));
  }

  lemma ExecOpImm(s: Arch, op: AluOp, rd: bv32, rs1: bv32, imm: bv32, length: bv32)
    requires rd < 16 && rs1 < 16
    ensures Exec(OpImm(op, rd, rs1, imm), s, length) ==
            Retire(s, Add32(s.pc, length), rd, Alu(op, Reg(s.regs, rs1), imm))
  {
    hide Alu, Reg, Add32, Retire;
  }

  lemma OpImmComputes(s: Arch, op: AluOp, rd: bv32, rs1: bv32, imm: bv32, length: bv32)
    requires rd < 16 && rs1 < 16
    ensures Leaves(s, Exec(OpImm(op, rd, rs1, imm), s, length), length, rd,
                   AluNumber(op, Number(s, rs1), Unsigned(imm)))
  {
    hide Unsigned, Number, Reg, Alu, AluNumber, Add32, Retire, Leaves, Exec;
    RegisterRead(s, rs1);
    ExecOpImm(s, op, rd, rs1, imm, length);
    RetireLeaves(s, rd, Alu(op, Reg(s.regs, rs1), imm), length);
    AluIs(op, Reg(s.regs, rs1), imm);
  }

  lemma UpperComputes(s: Arch, rd: bv32, imm: bv32, length: bv32)
    requires rd < 16
    ensures Leaves(s, Exec(Lui(rd, imm), s, length), length, rd, Unsigned(imm))
    ensures Leaves(s, Exec(Auipc(rd, imm), s, length), length, rd, Wrap(Unsigned(s.pc) + Unsigned(imm)))
  {
    hide Unsigned, Number, Add32, Retire, Leaves, Wrap;
    RetireLeaves(s, rd, imm, length);
    RetireLeaves(s, rd, Add32(s.pc, imm), length);
    AddIs(s.pc, imm);
  }

  // ---------------------------------------------------------------- jumps and branches

  lemma ParityIs(a: bv32)
    ensures a & 1 == 0 <==> Unsigned(a) % 2 == 0
  {
    ParityBit(a);
    hide Unsigned, Half, Odd;
    UnsignedIs(a);
  }

  lemma ParityBit(a: bv32)
    ensures a & 1 == 0 <==> !Odd(a)
  {
  }

  lemma ClearedIs(a: bv32)
    ensures Unsigned(ClearBit0(a)) == Unsigned(a) - Unsigned(a) % 2
  {
    ClearedHalves(a);
    hide Unsigned, Half, Odd, ClearBit0;
    UnsignedIs(a);
    UnsignedIs(ClearBit0(a));
  }

  lemma ClearedHalves(a: bv32)
    ensures Half(ClearBit0(a)) == Half(a) && !Odd(ClearBit0(a))
  {
  }

  /** A jump links rd with the address behind itself; a target that is odd traps, except for JALR, which
      clears the lowest bit. */
  lemma JumpComputes(s: Arch, rd: bv32, offset: bv32, length: bv32)
    requires rd < 16
    ensures var o := Exec(Jal(rd, offset), s, length); var target := Wrap(Unsigned(s.pc) + Unsigned(offset));
            if target % 2 == 1 then o == Trapped(s, InstructionMisaligned)
            else o.Done? && Unsigned(o.arch.pc) == target && Changes(s, o, rd, Wrap(Unsigned(s.pc) + Unsigned(length)))
  {
    hide Unsigned, Number, Add32, Retire, Changes, Wrap;
    AddIs(s.pc, offset);
    AddIs(s.pc, length);
    ParityIs(Add32(s.pc, offset));
    RetireChanges(s, Add32(s.pc, offset), rd, Add32(s.pc, length));
  }

  lemma ExecJumpRegister(s: Arch, rd: bv32, rs1: bv32, imm: bv32, length: bv32)
    requires rd < 16 && rs1 < 16
    ensures Exec(Jalr(rd, rs1, imm), s, length) ==
            Retire(s, ClearBit0(Add32(Reg(s.regs, rs1), imm)), rd, Add32(s.pc, length))
  {
    hide Reg, Add32, Retire, ClearBit0;
  }

  lemma JumpRegisterComputes(s: Arch, rd: bv32, rs1: bv32, imm: bv32, length: bv32)
    requires rd < 16 && rs1 < 16
    ensures var o := Exec(Jalr(rd, rs1, imm), s, length); var target := Wrap(Number(s, rs1) + Unsigned(imm));
            && o.Done? && Unsigned(o.arch.pc) == target - target % 2
            && Changes(s, o, rd, Wrap(Unsigned(s.pc) + Unsigned(length)))
  {
    hide Unsigned, Number, Add32, Retire, Changes, Wrap, Reg, ClearBit0, Exec;
    RegisterRead(s, rs1);
    ExecJumpRegister(s, rd, rs1, imm, length);
    var target := Add32(Reg(s.regs, rs1), imm);
    AddIs(Reg(s.regs, rs1), imm);
    AddIs(s.pc, length);
    ClearedIs(target);
    RetireChanges(s, ClearBit0(target), rd, Add32(s.pc, length));
  }

  predicate TakenNumber(op: BranchOp, a: nat, b: nat) {
    match op
    case Eq => a == b
    case Ne => a != b
    case Lt => SignedOf(a) < SignedOf(b)
    case Ge => SignedOf(a) >= SignedOf(b)
    case Ltu => a < b
    case Geu => a >= b
  }

  lemma GreaterIs(a: bv32, b: bv32)
    ensures a >= b <==> Unsigned(a) >= Unsigned(b)
  {
    NotLess(a, b);
    hide Unsigned;
    UnsignedLess(a, b);
  }

  lemma NotLess(a: bv32, b: bv32)
    ensures a >= b <==> !(a < b)
  {
  }

  lemma TakenIs(op: BranchOp, a: bv32, b: bv32)
    ensures Taken(op, a, b) <==> TakenNumber(op, Unsigned(a), Unsigned(b))
  {
    hide Unsigned, SignedOf, SignedLess;
    match op
    case Eq | Ne =>
      UnsignedEqual(a, b);
    case Lt | Ge =>
      SignedLessIs(a, b);
    case Ltu =>
      UnsignedLess(a, b);
    case Geu =>
      GreaterIs(a, b);
  }

  /** A branch goes to its target exactly when its condition holds, changes nothing else, and traps when
      it is taken to an odd address. */
  lemma BranchComputes(s: Arch, op: BranchOp, rs1: bv32, rs2: bv32, offset: bv32, length: bv32)
    requires rs1 < 16 && rs2 < 16
    ensures var o := Exec(Branch(op, rs1, rs2, offset), s, length);
            var target := Wrap(Unsigned(s.pc) + Unsigned(offset));
            if !TakenNumber(op, Number(s, rs1), Number(s, rs2)) then
              o.Done? && o.arch == s.(pc := o.arch.pc) && o.effect == NO_EFFECT &&
              Unsigned(o.arch.pc) == Wrap(Unsigned(s.pc) + Unsigned(length))
            else if target % 2 == 1 then o == Trapped(s, InstructionMisaligned)
            else o.Done? && o.arch == s.(pc := o.arch.pc) && o.effect == NO_EFFECT && Unsigned(o.arch.pc) == target
  {
    hide Unsigned, Number, Add32, Wrap, Reg, Taken, TakenNumber;
    RegisterRead(s, rs1);
    RegisterRead(s, rs2);
    AddIs(s.pc, offset);
    AddIs(s.pc, length);
    ParityIs(Add32(s.pc, offset));
    TakenIs(op, Reg(s.regs, rs1), Reg(s.regs, rs2));
  }

  // ---------------------------------------------------------------- memory

  lemma ByteIs(memory: Memory, a: int)
    ensures IsByte(Byte(memory, a)) && Unsigned(Byte(memory, a)) == Cell(memory, a) < 0x100
  {
    ByteWidth(memory, a);
    SmallNumbers();
    LimitNumbers(Byte(memory, a));
    hide Unsigned, IsByte;
  }

  lemma ByteWidth(memory: Memory, a: int)
    ensures IsByte(Byte(memory, a))
  {
  }

  lemma HalfWordIs(memory: Memory, a: int)
    ensures IsHalfWord(HalfWord(memory, a))
    ensures Unsigned(HalfWord(memory, a)) == Cell(memory, a) + 0x100 * Cell(memory, a + 1)
  {
    ByteIs(memory, a);
    ByteIs(memory, a + 1);
    LimitNumbers(Byte(memory, a + 1));
    HalfWordMeans(memory, a);
    hide Unsigned, IsByte, IsHalfWord, IsThreeBytes, Byte, AboveByte, HalfWord, Cell;
    UnsignedAboveByte(Byte(memory, a), Byte(memory, a + 1));
    LimitNumbers(HalfWord(memory, a));
  }

  lemma HalfWordMeans(memory: Memory, a: int)
    ensures HalfWord(memory, a) == AboveByte(Byte(memory, a), Byte(memory, a + 1))
  {
    hide Byte;
    AboveByteMeans(Byte(memory, a), Byte(memory, a + 1));
    hide AboveByte;
  }

  lemma AboveByteMeans(low: bv32, high: bv32)
    ensures AboveByte(low, high) == low | (high << 8)
  {
  }

  lemma WordMeans(memory: Memory, a: int)
    ensures Word(memory, a) == AboveHalf(HalfWord(memory, a), HalfWord(memory, a + 2))
  {
    hide Byte;
    WordBytes(Byte(memory, a), Byte(memory, a + 1), Byte(memory, a + 2), Byte(memory, a + 3));
    HalfWordMeans(memory, a);
    HalfWordMeans(memory, a + 2);
    WordOfBytes(memory, a);
    hide AboveByte, AboveHalf, HalfWord, Word;
  }

  function FourBytes(a: bv32, b: bv32, c: bv32, d: bv32): bv32 {
    a | (b << 8) | (c << 16) | (d << 24)
  }

  lemma WordOfBytes(memory: Memory, a: int)
    ensures Word(memory, a) == FourBytes(Byte(memory, a), Byte(memory, a + 1), Byte(memory, a + 2), Byte(memory, a + 3))
  {
    hide Byte;
  }

  lemma WordBytes(a: bv32, b: bv32, c: bv32, d: bv32)
    ensures FourBytes(a, b, c, d) == AboveHalf(AboveByte(a, b), AboveByte(c, d))
  {
  }

  lemma WordIs(memory: Memory, a: int)
    ensures Unsigned(Word(memory, a)) == Cell(memory, a) + 0x100 * Cell(memory, a + 1) + 0x1_0000 * Cell(memory, a + 2)
                                         + 0x100_0000 * Cell(memory, a + 3)
  {
    HalfWordIs(memory, a);
    HalfWordIs(memory, a + 2);
    WordMeans(memory, a);
    hide Unsigned, IsHalfWord, HalfWord, Word, AboveHalf, Cell;
    UnsignedAboveHalf(HalfWord(memory, a), HalfWord(memory, a + 2));
  }

  function SizeOf(op: LoadOp): nat {
    match op
    case Lb | Lbu => 1
    case Lh | Lhu => 2
    case Lw => 4
  }

  /** The number in so many cells, least significant first. */
  function Stored(memory: Memory, a: int, size: nat): nat
    decreases size
  {
    if size == 0 then 0 else Cell(memory, a) + 0x100 * Stored(memory, a + 1, size - 1)
  }

  lemma StoredOnce(memory: Memory, a: int)
    ensures Stored(memory, a, 1) == Cell(memory, a)
    ensures Stored(memory, a, 2) == Cell(memory, a) + 0x100 * Cell(memory, a + 1)
    ensures Stored(memory, a, 4) == Cell(memory, a) + 0x100 * Cell(memory, a + 1) + 0x1_0000 * Cell(memory, a + 2)
                                    + 0x100_0000 * Cell(memory, a + 3)
  {
    hide Cell;
    assert Stored(memory, a + 2, 2) == Cell(memory, a + 2) + 0x100 * Cell(memory, a + 3);
    assert Stored(memory, a, 4) == Cell(memory, a) + 0x100 * (Cell(memory, a + 1) + 0x100 * Stored(memory, a + 2, 2));
  }

  lemma LowBitsOf(a: bv32)
    ensures a & 3 == 3 <==> Unsigned(a) % 4 == 3
  {
    hide Unsigned, And32, Ones;
    SmallNumbers();
    LowBitsMask(a);
    UnsignedMask(a, 3);
    ThreeIs(And32(a, 3));
  }

  lemma ThreeIs(a: bv32)
    ensures a == 3 <==> Unsigned(a) == 3
  {
    hide Unsigned;
    SmallNumbers();
    UnsignedEqual(a, 3);
  }

  lemma LowBitsMask(a: bv32)
    ensures a & 3 == And32(a, 3) && Ones(3)
  {
  }

  /** What is fetched: nothing from an odd address, four cells when the low two bits are set, and two
      cells otherwise. */
  lemma FetchComputes(memory: Memory, pc: bv32)
    ensures var a := Unsigned(pc); var r := FetchAt(memory, pc);
            if a % 2 == 1 then r == Failure(InstructionMisaligned)
            else
              var size := if Cell(memory, a) % 4 == 3 then 4 else 2;
              r.Success? && Unsigned(r.value.0) == Stored(memory, a, size) && r.value.1 == if size == 4 then 4 else 2
  {
    var a := Unsigned(pc);
    ParityIs(pc);
    HalfWordIs(memory, a);
    WordIs(memory, a);
    LowBitsOf(HalfWord(memory, a));
    StoredOnce(memory, a);
    hide Unsigned, HalfWord, Word, Stored, Cell;
  }

  /** What a load leaves in its register: LBU and LHU the number itself, LB and LH the signed one. */
  function LoadNumber(op: LoadOp, memory: Memory, a: int): int {
    var n := Stored(memory, a, SizeOf(op));
    match op
    case Lb => if n < 0x80 then n else n - 0x100
    case Lh => if n < 0x8000 then n else n - 0x1_0000
    case Lw | Lbu | Lhu => n
  }

  lemma LoadIs(op: LoadOp, memory: Memory, address: bv32)
    ensures Unsigned(LoadValue(op, memory, address)) == Wrap(LoadNumber(op, memory, Unsigned(address)))
  {
    hide Unsigned, Byte, HalfWord, Word, Stored, IsByte, IsHalfWord, Cell, Sext, SignedOf, Wrap;
    var a := Unsigned(address);
    StoredOnce(memory, a);
    ByteIs(memory, a);
    HalfWordIs(memory, a);
    WordIs(memory, a);
    NoWrap(LoadValue(op, memory, address));
    match op
    case Lb =>
      SignedByte(Byte(memory, a));
      SignedBack(Sext(Byte(memory, a), 8));
    case Lh =>
      SignedHalf(HalfWord(memory, a));
      SignedBack(Sext(HalfWord(memory, a), 16));
    case _ =>
  }

  lemma NoWrap(a: bv32)
    ensures Wrap(Unsigned(a)) == Unsigned(a)
  {
    hide Unsigned;
    UnsignedBelow(a);
  }

  lemma AlignmentIs(address: bv32)
    ensures Aligned(address, 1)
    ensures Aligned(address, 2) <==> Unsigned(address) % 2 == 0
    ensures Aligned(address, 4) <==> Unsigned(address) % 4 == 0
  {
    hide Unsigned, And32;
    ParityIs(address);
    LowTwo(address);
    SmallNumbers();
    UnsignedHalves(3, 1);
    UnsignedMask(address, 3);
    UnsignedEqual(And32(address, 3), 0);
  }

  lemma LowTwo(a: bv32)
    ensures a & 3 == And32(a, 3) && Ones(3)
  {
  }

  lemma SizeAligned(op: LoadOp, address: bv32)
    ensures Aligned(address, LoadSize(op)) <==> Unsigned(address) % SizeOf(op) == 0
  {
    AlignmentIs(address);
    hide Unsigned, Aligned;
  }

  /** rd holds what was found at the address, which the log has too. */
  ghost predicate Loads(s: Arch, o: Outcome, rd: bv32, a: nat, n: nat)
    requires rd < 16 && o.Done?
  {
    && o.arch.memory == s.memory && o.arch.csrs == s.csrs
    && (forall r: bv32 | r < 16 :: Number(o.arch, r) == if r == rd && r != 0 then n else Number(s, r))
    && Logs(o.effect, rd, n) && o.effect.memWrite == None
    && o.effect.memAddr.Some? && Unsigned(o.effect.memAddr.value) == a
    && o.effect.memRead.Some? && Unsigned(o.effect.memRead.value) == n
  }

  lemma LoadLoads(s: Arch, op: LoadOp, rd: bv32, address: bv32, next: bv32)
    requires rd < 16 && Aligned(address, LoadSize(op))
    ensures var o := ExecLoad(op, rd, address, s, next);
            && o.Done? && o.arch.pc == next
            && Loads(s, o, rd, Unsigned(address), Wrap(LoadNumber(op, s.memory, Unsigned(address))))
  {
    LoadIs(op, s.memory, address);
    hide Unsigned, Number, Wrap, LoadValue, LoadNumber, SetReg, Aligned;
    NumbersAfter(s, ExecLoad(op, rd, address, s, next).arch, rd, LoadValue(op, s.memory, address));
  }

  lemma ExecLoads(s: Arch, op: LoadOp, rd: bv32, rs1: bv32, imm: bv32, length: bv32)
    requires rd < 16 && rs1 < 16
    ensures Exec(Load(op, rd, rs1, imm), s, length) ==
            ExecLoad(op, rd, Add32(Reg(s.regs, rs1), imm), s, Add32(s.pc, length))
  {
    hide Reg, Add32, ExecLoad;
  }

  /** A load traps at an address that its size does not divide, and else leaves what it found in rd. */
  lemma LoadComputes(s: Arch, op: LoadOp, rd: bv32, rs1: bv32, imm: bv32, length: bv32)
    requires rd < 16 && rs1 < 16
    ensures var o := Exec(Load(op, rd, rs1, imm), s, length); var a := Wrap(Number(s, rs1) + Unsigned(imm));
            if a % SizeOf(op) != 0 then o == Trapped(s, LoadMisaligned)
            else
              && o.Done? && Unsigned(o.arch.pc) == Wrap(Unsigned(s.pc) + Unsigned(length))
              && Loads(s, o, rd, a, Wrap(LoadNumber(op, s.memory, a)))
  {
    hide Unsigned, Number, Add32, Wrap, Reg, LoadNumber, Aligned, Loads, SizeOf, LoadSize, LoadValue, Exec;
    RegisterRead(s, rs1);
    ExecLoads(s, op, rd, rs1, imm, length);
    var address := Add32(Reg(s.regs, rs1), imm);
    AddIs(Reg(s.regs, rs1), imm);
    AddIs(s.pc, length);
    SizeAligned(op, address);
    if Aligned(address, LoadSize(op)) {
      LoadLoads(s, op, rd, address, Add32(s.pc, length));
    }
  }

  function StoredSize(op: StoreOp): nat {
    match op
    case Sb => 1
    case Sh => 2
    case Sw => 4
  }

  lemma StoreAligned(op: StoreOp, address: bv32)
    ensures Aligned(address, StoreSize(op)) <==> Unsigned(address) % StoredSize(op) == 0
  {
    AlignmentIs(address);
    hide Unsigned, Aligned;
  }

  lemma LowByteIs(v: bv32)
    ensures Unsigned(LowByte(v) as bv32) == Unsigned(v) % 0x100
  {
    LowByteMask(v);
    ByteLimits();
    MaskNumber();
    hide Unsigned, And32, Ones;
    UnsignedMask(v, 0xFF);
  }

  lemma LowByteMask(v: bv32)
    ensures (LowByte(v) as bv32) == And32(v, 0xFF) && Ones(0xFF)
  {
  }

  lemma {:induction false} ByteOfIs(v: bv32, k: nat)
    ensures Unsigned(ByteOf(v, k) as bv32) == Digit256(Unsigned(v), k)
    decreases k
  {
    LowByteIs(v);
    ShiftByte(v);
    hide Unsigned, LowByte;
    if k > 0 {
      ByteOfIs(v >> 8, k - 1);
    }
  }

  lemma {:induction false} StoreBytesIs(memory: Memory, address: int, value: bv32, size: nat, a: int)
    ensures Cell(StoreBytes(memory, address, value, size), a) ==
            if address <= a < address + size then Digit256(Unsigned(value), a - address) else Cell(memory, a)
    decreases size
  {
    hide Unsigned, ByteOf, Digit256;
    if size > 0 {
      StoreBytesIs(memory, address, value, size - 1, a);
      ByteOfIs(value, size - 1);
    }
  }

  /** The cells from an address on hold the low bytes of a number, and the others what they held. */
  ghost predicate Stores(before: Memory, after: Memory, a: int, size: nat, n: nat) {
    forall x :: Cell(after, x) == if a <= x < a + size then Digit256(n, x - a) else Cell(before, x)
  }

  lemma StoreValueStores(memory: Memory, op: StoreOp, address: bv32, value: bv32)
    ensures Stores(memory, StoreValue(op, memory, address, value), Unsigned(address), StoredSize(op), Unsigned(value))
  {
    hide Unsigned, Cell, Digit256, StoreBytes;
    forall x
      ensures Cell(StoreBytes(memory, Unsigned(address), value, StoredSize(op)), x) ==
              if Unsigned(address) <= x < Unsigned(address) + StoredSize(op)
              then Digit256(Unsigned(value), x - Unsigned(address)) else Cell(memory, x)
    {
      StoreBytesIs(memory, Unsigned(address), value, StoredSize(op), x);
    }
  }

  function StoredLimit(op: StoreOp): nat {
    match op
    case Sb => 0x100
    case Sh => 0x1_0000
    case Sw => 0x1_0000_0000
  }

  lemma StoredMasks(value: bv32)
    ensures value & 0xFF == And32(value, 0xFF) && value & 0xFFFF == And32(value, 0xFFFF) && Ones(0xFF) && Ones(0xFFFF)
  {
  }

  lemma StoredPartIs(op: StoreOp, value: bv32)
    ensures Unsigned(StoredPart(op, value)) == Unsigned(value) % StoredLimit(op)
  {
    StoredMasks(value);
    MaskNumber();
    UnsignedBelow(value);
    hide Unsigned, And32, Ones;
    UnsignedMask(value, 0xFF);
    UnsignedMask(value, 0xFFFF);
  }

  lemma ExecStores(s: Arch, op: StoreOp, rs2: bv32, rs1: bv32, imm: bv32, length: bv32)
    requires rs2 < 16 && rs1 < 16
    ensures Exec(Store(op, rs2, rs1, imm), s, length) ==
            ExecStore(op, Reg(s.regs, rs2), Add32(Reg(s.regs, rs1), imm), s, Add32(s.pc, length))
  {
    hide Reg, Add32, ExecStore;
  }

  /** A store traps at an address that its size does not divide, and else puts the low bytes of the
      register into as many cells, least significant first, and changes no other cell and no register. */
  lemma StoreComputes(s: Arch, op: StoreOp, rs2: bv32, rs1: bv32, imm: bv32, length: bv32)
    requires rs2 < 16 && rs1 < 16
    ensures var o := Exec(Store(op, rs2, rs1, imm), s, length); var a := Wrap(Number(s, rs1) + Unsigned(imm));
            if a % StoredSize(op) != 0 then o == Trapped(s, StoreMisaligned)
            else
              && o.Done? && Unsigned(o.arch.pc) == Wrap(Unsigned(s.pc) + Unsigned(length))
              && o.arch.regs == s.regs && o.arch.csrs == s.csrs
              && Stores(s.memory, o.arch.memory, a, StoredSize(op), Number(s, rs2))
              && o.effect.rd == None && o.effect.memRead == None
              && o.effect.memAddr.Some? && Unsigned(o.effect.memAddr.value) == a
              && o.effect.memWrite.Some? && Unsigned(o.effect.memWrite.value) == Number(s, rs2) % StoredLimit(op)
  {
    hide Unsigned, Number, Add32, Wrap, Reg, Aligned, Stores, StoreValue, StoredSize, StoreSize, StoredPart,
         StoredLimit;
    hide Exec;
    RegisterRead(s, rs1);
    RegisterRead(s, rs2);
    StoredPartIs(op, Reg(s.regs, rs2));
    ExecStores(s, op, rs2, rs1, imm, length);
    var address := Add32(Reg(s.regs, rs1), imm);
    AddIs(Reg(s.regs, rs1), imm);
    AddIs(s.pc, length);
    StoreAligned(op, address);
    StoreValueStores(s.memory, op, address, Reg(s.regs, rs2));
  }

  // ---------------------------------------------------------------- CSRs

  /** The CSRs that can be written, by number: mstatus, mie, mtvec, mscratch, mepc, mcause and mtval. */
  predicate HasStorage(csr: bv32) {
    csr == 0x300 || csr == 0x304 || csr == 0x305 || csr == 0x340 || csr == 0x341 || csr == 0x342 || csr == 0x343
  }

  /** Those that can only be read: misa, mip and the four identity registers. */
  predicate IsFixed(csr: bv32) {
    csr == 0x301 || csr == 0x344 || csr == 0xF11 || csr == 0xF12 || csr == 0xF13 || csr == 0xF14
  }

  /** The number that a CSR reads as: misa names RV32EC. */
  function Held(csrs: CsrFile, csr: bv32): nat {
    if csr == 0x301 then 0x4000_0014
    else if HasStorage(csr) && CsrName(csr) in csrs then Unsigned(csrs[CsrName(csr)])
    else 0
  }

  /** What a write asks for: set and clear go by the binary digits. */
  function CsrNumber(op: CsrOp, before: nat, operand: nat): nat
    requires operand < MODULUS
  {
    match op
    case ReadWrite => operand
    case ReadSet => Bitwise(Either, before, operand)
    case ReadClear => Bitwise(Both, before, MODULUS - 1 - operand)
  }

  /** What the CSR keeps of it: MIE, MPIE and MPP of mstatus, three bits of mie, an aligned mtvec, an
      even mepc, all of the others. */
  function KeptNumber(csr: bv32, n: nat): nat {
    if csr == 0x300 then Bitwise(Both, n, 0x1888)
    else if csr == 0x304 then Bitwise(Both, n, 0x888)
    else if csr == 0x305 then n - n % 4
    else if csr == 0x341 then n - n % 2
    else n
  }

  lemma CsrSets(csr: bv32)
    ensures WritableCsr(csr) <==> HasStorage(csr)
    ensures ReadOnlyCsr(csr) <==> IsFixed(csr)
    ensures !(HasStorage(csr) && IsFixed(csr))
  {
  }

  lemma MisaNumber()
    ensures Unsigned(0x4000_0014) == 0x4000_0014
  {
    hide Unsigned, Add32;
    MisaParts();
    SmallNumbers();
    UnsignedSign();
    UnsignedHalves(0x8000_0000, 0x4000_0000);
    UnsignedHalves(5, 2);
    UnsignedHalves(10, 5);
    UnsignedHalves(20, 10);
    UnsignedAdd(0x4000_0000, 20);
  }

  lemma MisaParts()
    ensures Add32(0x4000_0000, 20) == 0x4000_0014
  {
  }

  lemma CsrReads(csrs: CsrFile, csr: bv32)
    ensures Unsigned(CsrValue(csrs, csr)) == Held(csrs, csr)
  {
    MisaNumber();
    SmallNumbers();
    CsrSets(csr);
    hide Unsigned, WritableCsr, HasStorage;
  }

  lemma CsrResultIs(op: CsrOp, before: bv32, operand: bv32)
    ensures Unsigned(operand) < MODULUS
    ensures Unsigned(CsrResult(op, before, operand)) == CsrNumber(op, Unsigned(before), Unsigned(operand))
  {
    UnsignedBelow(operand);
    ClearMeans(before, operand);
    hide Unsigned, Complement, Bitwise, And32, Or32;
    UnsignedComplement(operand);
    UnsignedBitwise(Either, before, operand);
    UnsignedBitwise(Both, before, Complement(operand));
  }

  lemma ClearMeans(before: bv32, operand: bv32)
    ensures CsrResult(ReadClear, before, operand) == And32(before, Complement(operand))
  {
    ComplementMeans(operand);
    hide Complement, And32;
  }

  lemma MaskNumbers()
    ensures Unsigned(0x1888) == 0x1888 && Unsigned(0x888) == 0x888 && Unsigned(0x1880) == 0x1880
  {
    hide Unsigned;
    SmallNumbers();
    UnsignedHalves(17, 8);
    UnsignedHalves(34, 17);
    UnsignedHalves(68, 34);
    UnsignedHalves(136, 68);
    UnsignedHalves(273, 136);
    UnsignedHalves(546, 273);
    UnsignedHalves(1092, 546);
    UnsignedHalves(2184, 1092);
    UnsignedHalves(3, 1);
    UnsignedHalves(6, 3);
    UnsignedHalves(12, 6);
    UnsignedHalves(24, 12);
    UnsignedHalves(49, 24);
    UnsignedHalves(98, 49);
    UnsignedHalves(196, 98);
    UnsignedHalves(392, 196);
    UnsignedHalves(784, 392);
    UnsignedHalves(785, 392);
    UnsignedHalves(1568, 784);
    UnsignedHalves(1570, 785);
    UnsignedHalves(3136, 1568);
    UnsignedHalves(3140, 1570);
    UnsignedHalves(6272, 3136);
    UnsignedHalves(6280, 3140);
  }

  lemma StatusMask(value: bv32)
    ensures CsrKeeps(0x300, value) == And32(value, 0x1888)
  {
  }

  lemma EnableMask(value: bv32)
    ensures CsrKeeps(0x304, value) == And32(value, 0x888)
  {
  }

  lemma VectorMask(value: bv32)
    ensures CsrKeeps(0x305, value) == And32(value, 0xFFFF_FFFC)
  {
  }

  lemma CounterKeeps(value: bv32)
    ensures CsrKeeps(0x341, value) == value & MEPC_BITS
  {
  }

  lemma CounterBits()
    ensures MEPC_BITS == 0xFFFF_FFFE
  {
  }

  lemma CounterMask(value: bv32)
    ensures CsrKeeps(0x341, value) == And32(value, 0xFFFF_FFFE)
  {
    CounterKeeps(value);
    CounterBits();
    hide CsrKeeps;
  }

  lemma ClearBit0Means(value: bv32)
    ensures ClearBit0(value) == And32(value, 0xFFFF_FFFE)
  {
  }

  lemma TwoBits(value: bv32)
    ensures Half(0xFFFF_FFFC) == 0x7FFF_FFFE && !Odd(0xFFFF_FFFC)
    ensures Half(0x7FFF_FFFE) == 0x3FFF_FFFF && !Odd(0x7FFF_FFFE)
    ensures And32(Half(Half(value)), 0x3FFF_FFFF) == Half(Half(value))
  {
  }

  lemma TwoCleared(value: bv32)
    ensures var w := And32(value, 0xFFFF_FFFC); !Odd(w) && !Odd(Half(w)) && Half(Half(w)) == Half(Half(value))
  {
    TwoBits(value);
    hide Half, Odd, And32;
    HalfOfAnd(value, 0xFFFF_FFFC);
    HalfOfAnd(Half(value), 0x7FFF_FFFE);
  }

  lemma VectorKept(value: bv32)
    ensures Unsigned(CsrKeeps(0x305, value)) == Unsigned(value) - Unsigned(value) % 4
  {
    VectorMask(value);
    TwoCleared(value);
    hide Unsigned, And32, Half, Odd, CsrKeeps;
    var w := And32(value, 0xFFFF_FFFC);
    UnsignedIs(value);
    UnsignedIs(Half(value));
    UnsignedIs(w);
    UnsignedIs(Half(w));
  }

  lemma CsrKeepsIs(csr: bv32, value: bv32)
    requires WritableCsr(csr)
    ensures Unsigned(CsrKeeps(csr, value)) == KeptNumber(csr, Unsigned(value))
  {
    MaskNumbers();
    hide Unsigned, And32, ClearBit0, Bitwise;
    if csr == 0x300 {
      StatusMask(value);
      UnsignedBitwise(Both, value, 0x1888);
    } else if csr == 0x304 {
      EnableMask(value);
      UnsignedBitwise(Both, value, 0x888);
    } else if csr == 0x305 {
      VectorKept(value);
    } else if csr == 0x341 {
      CounterMask(value);
      ClearBit0Means(value);
      ClearedIs(value);
    }
  }

  /** One CSR has changed. */
  ghost predicate CsrsAfter(before: CsrFile, after: CsrFile, csr: bv32, n: nat) {
    forall c :: Held(after, c) == if c == csr then n else Held(before, c)
  }

  lemma SetCsrIs(csrs: CsrFile, csr: bv32, value: bv32)
    requires WritableCsr(csr)
    ensures CsrsAfter(csrs, SetCsr(csrs, csr, value), csr, KeptNumber(csr, Unsigned(value)))
  {
    hide Unsigned, KeptNumber, CsrKeeps, HasStorage, WritableCsr;
    CsrSets(csr);
    CsrKeepsIs(csr, value);
    MisaHasNone();
  }

  lemma MisaHasNone()
    ensures !HasStorage(0x301)
  {
  }

  /** The CSR file after an access that is not refused. */
  ghost predicate CsrAccessed(op: CsrOp, operand: nat, csr: bv32, before: CsrFile, after: CsrFile)
    requires operand < MODULUS
  {
    if op == ReadWrite || operand > 0
    then HasStorage(csr) && CsrsAfter(before, after, csr, KeptNumber(csr, CsrNumber(op, Held(before, csr), operand)))
    else after == before
  }

  /** The register rd holds n, apart from the CSRs nothing else has changed. */
  ghost predicate ReadsCsr(s: Arch, o: Outcome, rd: bv32, n: nat)
    requires rd < 16 && o.Done?
  {
    && o.arch.memory == s.memory
    && (forall r: bv32 | r < 16 :: Number(o.arch, r) == if r == rd && r != 0 then n else Number(s, r))
    && Logs(o.effect, rd, n)
    && o.effect.memAddr == None && o.effect.memRead == None && o.effect.memWrite == None
  }

  /** What a permitted access does to the CSRs, and what is left to do for rd. */
  lemma CommitChanges(op: CsrOp, operand: bv32, rd: bv32, csr: bv32, s: Arch, next: bv32)
    requires WritableCsr(csr) || ReadOnlyCsr(csr)
    ensures Unsigned(operand) < MODULUS
    ensures var o := CommitCsr(op, operand, rd, csr, s, next); var v := Unsigned(operand);
            if IsFixed(csr) && (op == ReadWrite || v > 0) then o == Trapped(s, IllegalInstruction)
            else
              && CsrAccessed(op, v, csr, s.csrs, o.arch.csrs)
              && o == if rd >= 16 then Trapped(s.(csrs := o.arch.csrs), Rv32eRegister)
                      else Retire(s.(csrs := o.arch.csrs), next, rd, CsrValue(s.csrs, csr))
  {
    hide Unsigned, WritableCsr, ReadOnlyCsr, HasStorage, IsFixed, CsrValue, CsrResult, CsrNumber, KeptNumber, SetCsr,
         CsrsAfter, Held, SetReg;
    CsrSets(csr);
    SmallNumbers();
    UnsignedBelow(operand);
    UnsignedEqual(operand, 0);
    CsrReads(s.csrs, csr);
    var before := CsrValue(s.csrs, csr);
    CsrResultIs(op, before, operand);
    if WritableCsr(csr) {
      SetCsrIs(s.csrs, csr, CsrResult(op, before, operand));
    }
  }

  lemma CommitIs(op: CsrOp, operand: bv32, rd: bv32, csr: bv32, s: Arch, next: bv32)
    requires HasStorage(csr) || IsFixed(csr)
    ensures WritableCsr(csr) || ReadOnlyCsr(csr)
    ensures Unsigned(operand) < MODULUS
    ensures var o := CommitCsr(op, operand, rd, csr, s, next); var v := Unsigned(operand);
            if IsFixed(csr) && (op == ReadWrite || v > 0) then o == Trapped(s, IllegalInstruction)
            else
              && CsrAccessed(op, v, csr, s.csrs, o.arch.csrs)
              && if rd >= 16 then o == Trapped(s.(csrs := o.arch.csrs), Rv32eRegister)
                 else o.Done? && o.arch.pc == next && ReadsCsr(s, o, rd, Held(s.csrs, csr))
  {
    hide Unsigned, WritableCsr, ReadOnlyCsr, HasStorage, IsFixed, CsrValue, CommitCsr, CsrAccessed, Number, SetReg,
         Held;
    CsrSets(csr);
    UnsignedBelow(operand);
    CsrReads(s.csrs, csr);
    CommitChanges(op, operand, rd, csr, s, next);
    var o := CommitCsr(op, operand, rd, csr, s, next);
    if o.Done? {
      NumbersAfter(s, o.arch, rd, CsrValue(s.csrs, csr));
    }
  }

  /** A CSR access: which accesses are refused and how, what the CSR holds afterwards, and that rd gets
      what it held before. */
  lemma CsrComputes(s: Arch, op: CsrOp, immediate: bool, rd: bv32, source: bv32, csr: bv32, length: bv32)
    ensures var o := Exec(Csr(op, immediate, rd, source, csr), s, length);
            if !HasStorage(csr) && !IsFixed(csr) then o == Trapped(s, IllegalInstruction)
            else if !immediate && source >= 16 then o == Trapped(s, Rv32eRegister)
            else
              var v := if immediate then Unsigned(source) else Number(s, source);
              && v < MODULUS
              && if IsFixed(csr) && (op == ReadWrite || v > 0) then o == Trapped(s, IllegalInstruction)
                 else
                   && CsrAccessed(op, v, csr, s.csrs, o.arch.csrs)
                   && if rd >= 16 then o == Trapped(s.(csrs := o.arch.csrs), Rv32eRegister)
                      else
                        && o.Done? && Unsigned(o.arch.pc) == Wrap(Unsigned(s.pc) + Unsigned(length))
                        && ReadsCsr(s, o, rd, Held(s.csrs, csr))
  {
    hide Unsigned, Number, WritableCsr, ReadOnlyCsr, HasStorage, IsFixed, CommitCsr, CsrAccessed, ReadsCsr, Held, Add32,
         Wrap, Reg;
    CsrSets(csr);
    AddIs(s.pc, length);
    if immediate || source < 16 {
      if !immediate {
        RegisterRead(s, source);
      }
      if HasStorage(csr) || IsFixed(csr) {
        CommitIs(op, if immediate then source else Reg(s.regs, source), rd, csr, s, Add32(s.pc, length));
      }
    }
  }

  lemma StatusBits(status: bv32)
    ensures status & MSTATUS_MPIE != 0 <==> Odd(ShiftRight(status, 7))
  {
  }

  lemma StatusKept()
    ensures CsrKeeps(0x300, MSTATUS_MIE | MSTATUS_MPIE | MSTATUS_MPP) == 0x1888
    ensures CsrKeeps(0x300, 0 | MSTATUS_MPIE | MSTATUS_MPP) == 0x1880
  {
  }

  /** Whether MPIE is set. */
  predicate Previous(csrs: CsrFile) {
    CsrValue(csrs, MSTATUS) & MSTATUS_MPIE != 0
  }

  lemma PreviousIs(csrs: CsrFile)
    ensures Previous(csrs) <==> (Held(csrs, 0x300) / 0x80) % 2 == 1
  {
    hide Unsigned, Odd, Half, ShiftRight, CsrValue, Held, Pow2;
    var status := CsrValue(csrs, MSTATUS);
    CsrReads(csrs, MSTATUS);
    StatusBits(status);
    SmallNumbers();
    PowersOfTwo();
    UnsignedShiftRight(status, 7);
    UnsignedIs(ShiftRight(status, 7));
  }

  /** MRET as a change of mstatus alone. */
  lemma MretSets(csrs: CsrFile)
    ensures CsrsAfter(csrs, MretCsrs(csrs), 0x300, if Previous(csrs) then 0x1888 else 0x1880)
  {
    StatusKept();
    MaskNumbers();
    var w := (if Previous(csrs) then MSTATUS_MIE else 0) | MSTATUS_MPIE | MSTATUS_MPP;
    assert MretCsrs(csrs) == SetCsr(csrs, MSTATUS, w) by {
      hide CsrValue, SetCsr;
    }
    hide Unsigned, CsrValue, SetCsr, CsrKeeps, CsrsAfter, MretCsrs, KeptNumber, Previous;
    SetCsrIs(csrs, MSTATUS, w);
    CsrKeepsIs(MSTATUS, w);
  }

  /** MRET goes to mepc; of mstatus MIE becomes what MPIE was, and MPIE and MPP become all ones. */
  lemma MretComputes(s: Arch, length: bv32)
    ensures var o := Exec(Mret, s, length);
            && o.Done? && o.effect == NO_EFFECT && o.arch.regs == s.regs && o.arch.memory == s.memory
            && Unsigned(o.arch.pc) == Held(s.csrs, 0x341)
            && CsrsAfter(s.csrs, o.arch.csrs, 0x300, if (Held(s.csrs, 0x300) / 0x80) % 2 == 1 then 0x1888 else 0x1880)
  {
    CsrReads(s.csrs, MEPC);
    PreviousIs(s.csrs);
    MretSets(s.csrs);
    hide Unsigned, CsrValue, Held, MretCsrs, Previous, CsrsAfter;
  }

  /** FENCE changes the pc alone; ECALL and EBREAK trap and change nothing; WFI puts to sleep behind
      itself. */
  lemma OthersCompute(s: Arch, length: bv32)
    ensures var o := Exec(Fence, s, length);
            o.Done? && o.arch == s.(pc := o.arch.pc) && o.effect == NO_EFFECT &&
            Unsigned(o.arch.pc) == Wrap(Unsigned(s.pc) + Unsigned(length))
    ensures Exec(Ecall, s, length) == Trapped(s, EcallTrap) && Exec(Ebreak, s, length) == Trapped(s, EbreakTrap)
    ensures var o := Exec(Wfi, s, length);
            o.Asleep? && o.arch == s.(pc := o.arch.pc) && Unsigned(o.arch.pc) == Wrap(Unsigned(s.pc) + Unsigned(length))
  {
    hide Unsigned, Add32, Wrap;
    AddIs(s.pc, length);
  }

  // ---------------------------------------------------------------- 16-bit instructions

  /** A half word does what its instruction does over two bytes. Only an operation that leaves its register
      as it is for its zero immediate is not logged as a write. */
  lemma ShortComputes(s: Arch, insn: bv32, i: Instr)
    requires Decode16(insn) == Success(i)
    ensures Operands(i)
    ensures i.OpImm? && i.alu in {Add, Sll, Srl, Sra} && i.rd == i.rs1 && i.imm == 0 ==>
              var t := Execute16(s, insn);
              t.Done? && t.effect == NO_EFFECT && t.arch == s.(pc := Add32(s.pc, 2))
    ensures !i.OpImm? || i.alu == And || i.rd != i.rs1 || i.imm != 0 ==> Execute16(s, insn) == Exec(i, s, 2)
  {
    hide Decode16, Add32, Alu, Reg, SetReg;
    if i.OpImm? && i.alu in {Add, Sll, Srl, Sra} && i.rd == i.rs1 && i.imm == 0 {
      NeutralImmediates(Reg(s.regs, i.rd));
      RewriteReg(s.regs, i.rd);
    } else {
      hide Exec;
    }
  }
}
