/** One step and whole runs of the RV32EC machine, as functions on its state. */
module Machine {
  import opened Words
  import opened Isa
  import opened Decoder

  /** One line of the trace. A register was written when effect.rd is some, and the
      step trapped when cause is. */
  datatype Record = Record(cycle: nat, pc: bv32, insn: bv32, length: bv32, effect: Effect, cause: Option<Cause>)

  datatype Machine = Machine(arch: Arch, halted: bool, sleeping: bool, cycle: nat, trace: seq<Record>) {
    predicate Running() {
      !halted && !sleeping
    }
  }

  function Fetch(s: Arch): Result<(bv32, bv32), Cause> {
    FetchAt(s.memory, s.pc)
  }

  /** The instruction at pc and its length in bytes. */
  function FetchAt(memory: Memory, pc: bv32): Result<(bv32, bv32), Cause> {
    var halfword := HalfWord(memory, Unsigned(pc));
    if pc & 1 != 0 then Failure(InstructionMisaligned)
    else if halfword & 3 != 3 then Success((halfword, 2))
    else Success((Word(memory, Unsigned(pc)), 4))
  }

  /** Execute a 32-bit instruction, counted as `length` bytes long. */
  function Execute32(s: Arch, insn: bv32, length: bv32): Outcome {
    match Decode32(insn)
    case Failure(cause) => Trapped(s, cause)
    case Success(i) => Exec(i, s, length)
  }

  /** A compressed immediate operation that cannot change its register is not traced as a write. */
  predicate Unlogged(i: Instr) {
    i.OpImm? && i.rd == i.rs1 && i.imm == 0 && i.alu != And
  }

  function Execute16(s: Arch, insn: bv32): Outcome {
    Perform16(s, Decode16(insn))
  }

  function Perform16(s: Arch, decoded: Decoded): Outcome
    requires decoded.Success? ==> Operands(decoded.value)
  {
    match decoded
    case Failure(cause) => Trapped(s, cause)
    case Success(i) =>
      var outcome := Exec(i, s, 2);
      if Unlogged(i) && outcome.Done? then outcome.(effect := NO_EFFECT) else outcome
  }

  function Execute(s: Arch, insn: bv32, length: bv32): Outcome {
    if length == 2 then Execute16(s, insn) else Execute32(s, insn, length)
  }

  /** The state after a step that left `arch` and logged `item`. */
  function Advance(m: Machine, arch: Arch, item: Record): Machine {
    m.(arch := arch.(regs := arch.regs[0 := 0]), cycle := m.cycle + 1, trace := m.trace + [item])
  }

  /** The state after a step that fetched an instruction. */
  function Completed(m: Machine, insn: bv32, length: bv32, outcome: Outcome): Machine {
    match outcome
    case Done(arch, effect) => Advance(m, arch, Record(m.cycle, m.arch.pc, insn, length, effect, None))
    case Asleep(arch) =>
      Advance(m, arch, Record(m.cycle, m.arch.pc, insn, length, NO_EFFECT, None)).(sleeping := true)
    case Trapped(arch, cause) =>
      Advance(m, arch, Record(m.cycle, m.arch.pc, insn, length, NO_EFFECT, Some(cause))).(halted := true)
  }

  function Step(m: Machine): Machine {
    if !m.Running() then m
    else
      match Fetch(m.arch)
      case Failure(cause) =>
        Advance(m, m.arch, Record(m.cycle, m.arch.pc, 0, 4, NO_EFFECT, Some(cause))).(halted := true)
      case Success((insn, length)) => Completed(m, insn, length, Execute(m.arch, insn, length))
  }

  /** At most maxSteps steps: a halted or sleeping machine stays as it is. */
  function Run(m: Machine, maxSteps: nat): Machine
    decreases maxSteps
  {
    if maxSteps == 0 then m else Run(Step(m), maxSteps - 1)
  }

  /** After a trap or a WFI, further steps change nothing. */
  lemma {:induction false} StoppedRun(m: Machine, maxSteps: nat)
    requires !m.Running()
    ensures Run(m, maxSteps) == m
    decreases maxSteps
  {
    if maxSteps > 0 {
      StoppedRun(m, maxSteps - 1);
    }
  }

  /** The words laid out little-endian from `address` on. */
  function LoadWords(memory: Memory, address: int, words: seq<bv32>): Memory
    decreases |words|
  {
    if words == [] then memory
    else LoadWords(StoreBytes(memory, address, words[0], 4), address + 4, words[1..])
  }

  // ---------------------------------------------------------------- what each opcode does

  lemma LuiWord(s: Arch, insn: bv32, length: bv32)
    requires insn & 0x7F == 0x37
    ensures Execute32(s, insn, length) == (
      var rd := BitRange(insn, 11, 7);
      if rd >= 16 then Trapped(s, Rv32eRegister) else Retire(s, Add32(s.pc, length), rd, ImmU(insn)))
  {
    hide Add32, BitRange, Sext, SetReg, Reg, Wrote, ImmI, ImmJ, ImmB, ImmS, ImmU, LoadValue, Aligned, Alu, Taken;
    hide BranchOpOf, LoadOpOf, StoreOpOf, OpImmOf, OpOf, IsShift, DecodeSystem, ExecLoad, ExecStore, ExecBranch,
         ExecCsr, Retire;
  }

  lemma AuipcWord(s: Arch, insn: bv32, length: bv32)
    requires insn & 0x7F == 0x17
    ensures Execute32(s, insn, length) == (
      var rd := BitRange(insn, 11, 7);
      if rd >= 16 then Trapped(s, Rv32eRegister) else Retire(s, Add32(s.pc, length), rd, Add32(s.pc, ImmU(insn))))
  {
    hide Add32, BitRange, Sext, SetReg, Reg, Wrote, ImmI, ImmJ, ImmB, ImmS, ImmU, LoadValue, Aligned, Alu, Taken;
    hide BranchOpOf, LoadOpOf, StoreOpOf, OpImmOf, OpOf, IsShift, DecodeSystem, ExecLoad, ExecStore, ExecBranch,
         ExecCsr, Retire;
  }

  lemma JalWord(s: Arch, insn: bv32, length: bv32)
    requires insn & 0x7F == 0x6F
    ensures Execute32(s, insn, length) == (
      var rd := BitRange(insn, 11, 7);
      if rd >= 16 then Trapped(s, Rv32eRegister)
      else ExecJal(rd, Add32(s.pc, ImmJ(insn)), s, Add32(s.pc, length)))
  {
    hide Add32, BitRange, Sext, SetReg, Reg, Wrote, ImmI, ImmJ, ImmB, ImmS, ImmU, LoadValue, Aligned, Alu, Taken;
    hide BranchOpOf, LoadOpOf, StoreOpOf, OpImmOf, OpOf, IsShift, DecodeSystem, ExecLoad, ExecStore, ExecBranch,
         ExecCsr, Retire;
  }

  lemma JalrWord(s: Arch, insn: bv32, length: bv32)
    requires insn & 0x7F == 0x67
    ensures Execute32(s, insn, length) == (
      var rd := BitRange(insn, 11, 7); var rs1 := BitRange(insn, 19, 15);
      if BitRange(insn, 14, 12) != 0 then Trapped(s, IllegalInstruction)
      else if rd >= 16 || rs1 >= 16 then Trapped(s, Rv32eRegister)
      else ExecJalr(rd, Add32(Reg(s.regs, rs1), ImmI(insn)), s, Add32(s.pc, length)))
  {
    hide Add32, BitRange, Sext, SetReg, Reg, Wrote, ImmI, ImmJ, ImmB, ImmS, ImmU, LoadValue, Aligned, Alu, Taken;
    hide BranchOpOf, LoadOpOf, StoreOpOf, OpImmOf, OpOf, IsShift, DecodeSystem, ExecLoad, ExecStore, ExecBranch,
         ExecCsr, Retire;
  }

  lemma BranchWord(s: Arch, insn: bv32, length: bv32)
    requires insn & 0x7F == 0x63
    ensures Execute32(s, insn, length) == (
      var rs1 := BitRange(insn, 19, 15); var rs2 := BitRange(insn, 24, 20);
      if rs1 >= 16 || rs2 >= 16 then Trapped(s, Rv32eRegister)
      else match BranchOpOf(BitRange(insn, 14, 12))
        case None => Trapped(s, IllegalInstruction)
        case Some(op) => ExecBranch(Taken(op, Reg(s.regs, rs1), Reg(s.regs, rs2)), Add32(s.pc, ImmB(insn)), s,
            Add32(s.pc, length)))
  {
    hide Add32, BitRange, Sext, SetReg, Reg, Wrote, ImmI, ImmJ, ImmB, ImmS, ImmU, LoadValue, Aligned, Alu, Taken;
    hide BranchOpOf, LoadOpOf, StoreOpOf, OpImmOf, OpOf, IsShift, DecodeSystem, ExecLoad, ExecStore, ExecBranch,
         ExecCsr, Retire;
  }

  lemma LoadWord(s: Arch, insn: bv32, length: bv32)
    requires insn & 0x7F == 0x03
    ensures Execute32(s, insn, length) == (
      var rd := BitRange(insn, 11, 7); var rs1 := BitRange(insn, 19, 15);
      if rd >= 16 || rs1 >= 16 then Trapped(s, Rv32eRegister)
      else match LoadOpOf(BitRange(insn, 14, 12))
        case None => Trapped(s, IllegalInstruction)
        case Some(op) => ExecLoad(op, rd, Add32(Reg(s.regs, rs1), ImmI(insn)), s, Add32(s.pc, length)))
  {
    hide Add32, BitRange, Sext, SetReg, Reg, Wrote, ImmI, ImmJ, ImmB, ImmS, ImmU, LoadValue, Aligned, Alu, Taken;
    hide BranchOpOf, LoadOpOf, StoreOpOf, OpImmOf, OpOf, IsShift, DecodeSystem, ExecLoad, ExecStore, ExecBranch,
         ExecCsr, Retire;
  }

  lemma StoreWord(s: Arch, insn: bv32, length: bv32)
    requires insn & 0x7F == 0x23
    ensures Execute32(s, insn, length) == (
      var rs1 := BitRange(insn, 19, 15); var rs2 := BitRange(insn, 24, 20);
      if rs1 >= 16 || rs2 >= 16 then Trapped(s, Rv32eRegister)
      else match StoreOpOf(BitRange(insn, 14, 12))
        case None => Trapped(s, IllegalInstruction)
        case Some(op) => ExecStore(op, Reg(s.regs, rs2), Add32(Reg(s.regs, rs1), ImmS(insn)), s, Add32(s.pc, length)))
  {
    hide Add32, BitRange, Sext, SetReg, Reg, Wrote, ImmI, ImmJ, ImmB, ImmS, ImmU, LoadValue, Aligned, Alu, Taken;
    hide BranchOpOf, LoadOpOf, StoreOpOf, OpImmOf, OpOf, IsShift, DecodeSystem, ExecLoad, ExecStore, ExecBranch,
         ExecCsr, Retire;
  }

  /** The second operand of an OP-IMM instruction. */
  function Operand2(op: AluOp, imm: bv32, shamt: bv32): bv32 {
    if IsShift(op) then shamt else imm
  }

  lemma OpImmWord(s: Arch, insn: bv32, length: bv32)
    requires insn & 0x7F == 0x13
    ensures Execute32(s, insn, length) == (
      var rd := BitRange(insn, 11, 7); var rs1 := BitRange(insn, 19, 15);
      if rd >= 16 || rs1 >= 16 then Trapped(s, Rv32eRegister)
      else match OpImmOf(BitRange(insn, 14, 12), BitRange(insn, 31, 25))
        case None => Trapped(s, IllegalInstruction)
        case Some(op) =>
          Retire(s, Add32(s.pc, length), rd,
                 Alu(op, Reg(s.regs, rs1), Operand2(op, ImmI(insn), BitRange(insn, 24, 20)))))
  {
    hide Add32, BitRange, Sext, SetReg, Reg, Wrote, ImmI, ImmJ, ImmB, ImmS, ImmU, LoadValue, Aligned, Alu, Taken;
    hide BranchOpOf, LoadOpOf, StoreOpOf, OpImmOf, OpOf, IsShift, DecodeSystem, ExecLoad, ExecStore, ExecBranch,
         ExecCsr, Retire;
  }

  lemma OpWord(s: Arch, insn: bv32, length: bv32)
    requires insn & 0x7F == 0x33
    ensures Execute32(s, insn, length) == (
      var rd := BitRange(insn, 11, 7); var rs1 := BitRange(insn, 19, 15); var rs2 := BitRange(insn, 24, 20);
      if rd >= 16 || rs1 >= 16 || rs2 >= 16 then Trapped(s, Rv32eRegister)
      else match OpOf(BitRange(insn, 14, 12), BitRange(insn, 31, 25))
        case None => Trapped(s, IllegalInstruction)
        case Some(op) => Retire(s, Add32(s.pc, length), rd, Alu(op, Reg(s.regs, rs1), Reg(s.regs, rs2))))
  {
    hide Add32, BitRange, Sext, SetReg, Reg, Wrote, ImmI, ImmJ, ImmB, ImmS, ImmU, LoadValue, Aligned, Alu, Taken;
    hide BranchOpOf, LoadOpOf, StoreOpOf, OpImmOf, OpOf, IsShift, DecodeSystem, ExecLoad, ExecStore, ExecBranch,
         ExecCsr, Retire;
  }

  lemma EcallWord(s: Arch, length: bv32)
    ensures Execute32(s, 0x0000_0073, length) == Trapped(s, EcallTrap)
  {
    hide Add32, ExecMret, ExecCsr;
  }

  lemma EbreakWord(s: Arch, length: bv32)
    ensures Execute32(s, 0x0010_0073, length) == Trapped(s, EbreakTrap)
  {
    hide Add32, ExecMret, ExecCsr;
  }

  lemma WfiWord(s: Arch, length: bv32)
    ensures Execute32(s, 0x1050_0073, length) == Asleep(s.(pc := Add32(s.pc, length)))
  {
    hide Add32, ExecMret, ExecCsr;
  }

  lemma MretWord(s: Arch, length: bv32)
    ensures Execute32(s, 0x3020_0073, length) == ExecMret(s)
  {
    hide Add32, ExecMret, ExecCsr;
  }

  predicate FixedWord(insn: bv32) {
    insn == 0x0000_0073 || insn == 0x0010_0073 || insn == 0x1050_0073 || insn == 0x3020_0073
  }

  lemma CsrWord(s: Arch, insn: bv32, length: bv32)
    requires insn & 0x7F == 0x73 && !FixedWord(insn)
    ensures Execute32(s, insn, length) == (
      match CsrOpOf(BitRange(insn, 14, 12))
      case None => Trapped(s, IllegalInstruction)
      case Some(op) =>
        ExecCsr(op, BitRange(insn, 14, 12) & 4 != 0, BitRange(insn, 11, 7), BitRange(insn, 19, 15),
                BitRange(insn, 31, 20), s, Add32(s.pc, length)))
  {
    hide Add32, BitRange, ExecMret, ExecCsr, CsrOpOf;
  }

  lemma OtherWords(s: Arch, insn: bv32, length: bv32)
    ensures insn & 0x7F == 0x0F ==>
      Execute32(s, insn, length) ==
      if BitRange(insn, 14, 12) != 0 then Trapped(s, IllegalInstruction)
          else Done(s.(pc := Add32(s.pc, length)), NO_EFFECT)
    ensures insn & 0x7F !in {0x37, 0x17, 0x6F, 0x67, 0x63, 0x03, 0x23, 0x13, 0x33, 0x0F, 0x73} ==>
      Execute32(s, insn, length) == Trapped(s, IllegalInstruction)
  {
    hide Add32, BitRange;
  }

  // ---------------------------------------------------------------- what each 16-bit function code does

  lemma CRegRange(insn: bv32)
    ensures CReg(BitRange(insn, 4, 2)) < 16 && CReg(BitRange(insn, 9, 7)) < 16
    ensures CReg(BitRange(insn, 4, 2)) != 0 && CReg(BitRange(insn, 9, 7)) != 0
  {
  }

  /** Writing a register with its own value changes nothing. */
  lemma RewriteReg(regs: RegFile, rd: bv32)
    requires rd < 16
    ensures SetReg(regs, rd, Reg(regs, rd)) == regs
  {
  }

  lemma NeutralImmediates(a: bv32)
    ensures Alu(Add, a, 0) == a && Alu(Sll, a, 0) == a && Alu(Srl, a, 0) == a && Alu(Sra, a, 0) == a
  {
  }

  /** A compressed immediate operation does nothing when its register is x0 or its immediate is neutral. */
  function RetireImmediate(s: Arch, op: AluOp, rd: bv32, imm: bv32): Outcome {
    if !IsReg(rd) then Trapped(s, Rv32eRegister)
    else if rd == 0 || imm == 0 then Done(s.(pc := Add32(s.pc, 2)), NO_EFFECT)
    else Retire(s, Add32(s.pc, 2), rd, Alu(op, Reg(s.regs, rd), imm))
  }

  lemma ImmediateMeaning(s: Arch, op: AluOp, rd: bv32, imm: bv32)
    requires op == Add || op == Sll || op == Srl || op == Sra
    ensures Perform16(s, Checked(OpImm(op, rd, rd, imm))) == RetireImmediate(s, op, rd, imm)
  {
    hide Perform16, RetireImmediate;
    if rd >= 16 {
      BadImmediateMeaning(s, op, rd, imm);
    } else if imm == 0 {
      NeutralMeaning(s, op, rd);
    } else {
      EffectiveMeaning(s, op, rd, imm);
    }
  }

  lemma BadImmediateMeaning(s: Arch, op: AluOp, rd: bv32, imm: bv32)
    requires !IsReg(rd)
    ensures Perform16(s, Checked(OpImm(op, rd, rd, imm))) == RetireImmediate(s, op, rd, imm)
  {
    hide IsReg, Exec, Unlogged, Add32, Alu, Reg, Retire;
    assert Checked(OpImm(op, rd, rd, imm)) == Failure(Rv32eRegister);
  }

  lemma NeutralMeaning(s: Arch, op: AluOp, rd: bv32)
    requires rd < 16
    requires op == Add || op == Sll || op == Srl || op == Sra
    ensures Perform16(s, Checked(OpImm(op, rd, rd, 0))) == RetireImmediate(s, op, rd, 0)
  {
    hide Add32, Alu, Reg, SetReg, Wrote, Exec, Retire;
    ExecOpImm(s, op, rd, 0);
    RetireCompletes(s, Add32(s.pc, 2), rd, Alu(op, Reg(s.regs, rd), 0));
    NeutralImmediates(Reg(s.regs, rd));
    RetireUnchanged(s, Add32(s.pc, 2), rd);
  }

  lemma EffectiveMeaning(s: Arch, op: AluOp, rd: bv32, imm: bv32)
    requires rd < 16 && imm != 0
    ensures Perform16(s, Checked(OpImm(op, rd, rd, imm))) == RetireImmediate(s, op, rd, imm)
  {
    hide Add32, Alu, Reg, SetReg, Wrote, Exec, Retire;
    ExecOpImm(s, op, rd, imm);
    RetireCompletes(s, Add32(s.pc, 2), rd, Alu(op, Reg(s.regs, rd), imm));
  }

  lemma RetireUnchanged(s: Arch, next: bv32, rd: bv32)
    requires rd < 16
    ensures Retire(s, next, rd, Reg(s.regs, rd)).arch == s.(pc := next)
  {
    RewriteReg(s.regs, rd);
  }

  lemma RetireCompletes(s: Arch, next: bv32, rd: bv32, value: bv32)
    requires rd < 16
    ensures Retire(s, next, rd, value).Done?
    ensures rd == 0 ==> Retire(s, next, rd, value) == Done(s.(pc := next), NO_EFFECT)
  {
  }

  lemma ExecOpImm(s: Arch, op: AluOp, rd: bv32, imm: bv32)
    requires rd < 16
    ensures Exec(OpImm(op, rd, rd, imm), s, 2) == Retire(s, Add32(s.pc, 2), rd, Alu(op, Reg(s.regs, rd), imm))
  {
    hide Add32, Alu, Reg, Retire;
  }

  lemma NonzeroFunction(insn: bv32)
    ensures insn == 0 ==> BitRange(insn, 15, 13) == 0
  {
  }

  lemma Quadrant0Half(s: Arch, insn: bv32)
    requires insn != 0 && insn & 3 == 0
    ensures Execute16(s, insn) == (
      var low := CReg(BitRange(insn, 4, 2));
      var base := CReg(BitRange(insn, 9, 7));
      var imm := CAddi4spnImm(insn);
      if BitRange(insn, 15, 13) == 0 then
        if imm == 0 then Trapped(s, IllegalInstruction) else Retire(s, Add32(s.pc, 2), low, Add32(Reg(s.regs, 2), imm))
      else if BitRange(insn, 15, 13) == 2 then ExecLoad(Lw, low, Add32(Reg(s.regs, base), CLwImm(insn)), s,
          Add32(s.pc, 2))
      else if BitRange(insn, 15, 13) == 6 then ExecStore(Sw, Reg(s.regs, low), Add32(Reg(s.regs, base), CLwImm(insn)),
          s, Add32(s.pc, 2))
      else if BitRange(insn, 15, 13) & 1 == 1 then Trapped(s, UnsupportedExtension)
      else Trapped(s, IllegalInstruction))
  {
    CRegRange(insn);
    hide BitRange, CReg, CImm6, CAddi4spnImm, CLwImm, CLwspImm, CSwspImm, CAddi16spImm, CBranchImm, CJumpImm, Add32;
    hide Reg, ExecLoad, ExecStore, Retire;
  }

  lemma CAddiHalf(s: Arch, insn: bv32)
    requires insn & 3 == 1 && BitRange(insn, 15, 13) == 0
    ensures Execute16(s, insn) == (
      RetireImmediate(s, Add, BitRange(insn, 11, 7), CImm6(insn)))
  {
    hide BitRange, CReg, CImm6, CAddi4spnImm, CLwImm, CLwspImm, CSwspImm, CAddi16spImm, CBranchImm, CJumpImm, Add32;
    hide Reg, Perform16, RetireImmediate, Exec;
    ImmediateMeaning(s, Add, BitRange(insn, 11, 7), CImm6(insn));
  }

  lemma CJumpHalf(s: Arch, insn: bv32)
    requires insn & 3 == 1 && (BitRange(insn, 15, 13) == 1 || BitRange(insn, 15, 13) == 5)
    ensures Execute16(s, insn) == (
      ExecJal(if BitRange(insn, 15, 13) == 1 then 1 else 0, Add32(s.pc, CJumpImm(insn)), s, Add32(s.pc, 2)))
  {
    hide BitRange, CReg, CImm6, CAddi4spnImm, CLwImm, CLwspImm, CSwspImm, CAddi16spImm, CBranchImm, CJumpImm, Add32;
    hide Reg, ExecLoad, ExecStore, ExecBranch, ExecJal, ExecJalr, ExecCsr, ExecMret, Alu, Retire;
  }

  lemma CLiHalf(s: Arch, insn: bv32)
    requires insn & 3 == 1 && BitRange(insn, 15, 13) == 2
    ensures Execute16(s, insn) == (
      var rd := BitRange(insn, 11, 7);
      if !IsReg(rd) then Trapped(s, Rv32eRegister) else Retire(s, Add32(s.pc, 2), rd, CImm6(insn)))
  {
    hide BitRange, CReg, CImm6, CAddi4spnImm, CLwImm, CLwspImm, CSwspImm, CAddi16spImm, CBranchImm, CJumpImm, Add32,
         Retire, IsReg;
    AddToZero(s, CImm6(insn));
    RetireCompletes(s, Add32(s.pc, 2), 0, CImm6(insn));
  }

  lemma CLuiHalf(s: Arch, insn: bv32)
    requires insn & 3 == 1 && BitRange(insn, 15, 13) == 3
    ensures Execute16(s, insn) == (
      var rd := BitRange(insn, 11, 7);
      if !IsReg(rd) then Trapped(s, Rv32eRegister)
      else if rd == 2 then
        if CAddi16spImm(insn) == 0 then Trapped(s, IllegalInstruction)
        else Retire(s, Add32(s.pc, 2), 2, Add32(Reg(s.regs, 2), CAddi16spImm(insn)))
      else if CImm6(insn) == 0 then Trapped(s, IllegalInstruction)
      else Retire(s, Add32(s.pc, 2), rd, CImm6(insn) << 12))
  {
    hide BitRange, CReg, CImm6, CAddi4spnImm, CLwImm, CLwspImm, CSwspImm, CAddi16spImm, CBranchImm, CJumpImm, Add32,
         Reg, Retire;
  }

  lemma BranchMeaning(s: Arch, op: BranchOp, rs1: bv32, offset: bv32)
    requires (op == Eq || op == Ne) && IsReg(rs1)
    ensures IsReg(0) && Perform16(s, Success(Branch(op, rs1, 0, offset))) ==
            ExecBranch((Reg(s.regs, rs1) == 0) == (op == Eq), Add32(s.pc, offset), s, Add32(s.pc, 2))
  {
    hide Add32, ExecBranch;
  }

  lemma CBranchHalf(s: Arch, insn: bv32)
    requires insn & 3 == 1 && (BitRange(insn, 15, 13) == 6 || BitRange(insn, 15, 13) == 7)
    ensures Execute16(s, insn) == (
      var base := CReg(BitRange(insn, 9, 7));
      ExecBranch((Reg(s.regs, base) == 0) == (BitRange(insn, 15, 13) == 6), Add32(s.pc, CBranchImm(insn)), s,
          Add32(s.pc, 2)))
  {
    hide BitRange, CReg, CImm6, CAddi4spnImm, CLwImm, CLwspImm, CSwspImm, CAddi16spImm, CBranchImm, CJumpImm, Add32;
    hide ExecBranch, Perform16, Reg;
    CRegRange(insn);
    BranchMeaning(s, if BitRange(insn, 15, 13) == 6 then Eq else Ne, CReg(BitRange(insn, 9, 7)), CBranchImm(insn));
  }

  lemma CShiftHalf(s: Arch, insn: bv32)
    requires insn & 3 == 1 && BitRange(insn, 15, 13) == 4 && BitRange(insn, 11, 10) < 2
    ensures Execute16(s, insn) == (
      if BitRange(insn, 12, 12) != 0 then Trapped(s, UnsupportedExtension)
      else
        RetireImmediate(s, if BitRange(insn, 11, 10) == 0 then Srl
            else Sra, CReg(BitRange(insn, 9, 7)), BitRange(insn, 6, 2)))
  {
    hide BitRange, CReg, CImm6, CAddi4spnImm, CLwImm, CLwspImm, CSwspImm, CAddi16spImm, CBranchImm, CJumpImm, Add32;
    hide Reg, Perform16, RetireImmediate, Exec;
    CRegRange(insn);
    PerformFailure(s, UnsupportedExtension);
    ImmediateMeaning(s, Srl, CReg(BitRange(insn, 9, 7)), BitRange(insn, 6, 2));
    ImmediateMeaning(s, Sra, CReg(BitRange(insn, 9, 7)), BitRange(insn, 6, 2));
  }

  lemma AndiMeaning(s: Arch, rd: bv32, imm: bv32)
    requires IsReg(rd)
    ensures Perform16(s, Success(OpImm(And, rd, rd, imm))) == Retire(s, Add32(s.pc, 2), rd, And32(Reg(s.regs, rd), imm))
  {
    hide And32, Reg, Add32, Retire, IsReg;
  }

  lemma CAndiHalf(s: Arch, insn: bv32)
    requires insn & 3 == 1 && BitRange(insn, 15, 13) == 4 && BitRange(insn, 11, 10) == 2
    ensures Execute16(s, insn) == (
      var rd := CReg(BitRange(insn, 9, 7));
      Retire(s, Add32(s.pc, 2), rd, And32(Reg(s.regs, rd), CImm6(insn))))
  {
    hide BitRange, CReg, CImm6, CAddi4spnImm, CLwImm, CLwspImm, CSwspImm, CAddi16spImm, CBranchImm, CJumpImm, Add32,
         Reg, And32, Retire;
    hide Perform16, Exec;
    CRegRange(insn);
    AndiMeaning(s, CReg(BitRange(insn, 9, 7)), CImm6(insn));
  }

  lemma OpMeaning(s: Arch, op: AluOp, rd: bv32, rs1: bv32, rs2: bv32)
    requires IsReg(rd) && IsReg(rs1) && IsReg(rs2)
    ensures Perform16(s, Success(Op(op, rd, rs1, rs2))) ==
            Retire(s, Add32(s.pc, 2), rd, Alu(op, Reg(s.regs, rs1), Reg(s.regs, rs2)))
  {
    hide Alu, Reg, Add32, Retire, IsReg;
  }

  lemma JalrMeaning(s: Arch, rd: bv32, rs1: bv32)
    requires IsReg(rd) && IsReg(rs1)
    ensures Perform16(s, Success(Jalr(rd, rs1, 0))) == ExecJalr(rd, Reg(s.regs, rs1), s, Add32(s.pc, 2))
  {
    AddZero(Reg(s.regs, rs1));
    hide Reg, Add32, ExecJalr, IsReg;
  }

  lemma CRegistersHalf(s: Arch, insn: bv32)
    requires insn & 3 == 1 && BitRange(insn, 15, 13) == 4 && BitRange(insn, 11, 10) == 3
    ensures Execute16(s, insn) == (
      var rd := CReg(BitRange(insn, 9, 7));
      var rs2 := CReg(BitRange(insn, 4, 2));
      var caOp := BitRange(insn, 6, 5);
      if BitRange(insn, 12, 12) != 0 then Trapped(s, UnsupportedExtension)
      else
        var op := if caOp == 0 then Sub else if caOp == 1 then Xor else if caOp == 2 then Or else And;
        Retire(s, Add32(s.pc, 2), rd, Alu(op, Reg(s.regs, rd), Reg(s.regs, rs2))))
  {
    hide BitRange, CReg, CImm6, CAddi4spnImm, CLwImm, CLwspImm, CSwspImm, CAddi16spImm, CBranchImm, CJumpImm, Add32;
    hide Reg, Alu, Retire, Perform16;
    CRegRange(insn);
    var caOp := BitRange(insn, 6, 5);
    var op := if caOp == 0 then Sub else if caOp == 1 then Xor else if caOp == 2 then Or else And;
    PerformFailure(s, UnsupportedExtension);
    OpMeaning(s, op, CReg(BitRange(insn, 9, 7)), CReg(BitRange(insn, 9, 7)), CReg(BitRange(insn, 4, 2)));
  }

  lemma CSlliHalf(s: Arch, insn: bv32)
    requires insn & 3 == 2 && BitRange(insn, 15, 13) == 0
    ensures Execute16(s, insn) == (
      if BitRange(insn, 12, 12) != 0 then Trapped(s, UnsupportedExtension)
      else RetireImmediate(s, Sll, BitRange(insn, 11, 7), BitRange(insn, 6, 2)))
  {
    hide BitRange, CReg, CImm6, CAddi4spnImm, CLwImm, CLwspImm, CSwspImm, CAddi16spImm, CBranchImm, CJumpImm, Add32;
    hide Reg, Perform16, RetireImmediate, Exec;
    PerformFailure(s, UnsupportedExtension);
    ImmediateMeaning(s, Sll, BitRange(insn, 11, 7), BitRange(insn, 6, 2));
  }

  lemma CLwspHalf(s: Arch, insn: bv32)
    requires insn & 3 == 2 && BitRange(insn, 15, 13) == 2
    ensures Execute16(s, insn) == (
      var rd := BitRange(insn, 11, 7);
      if !IsReg(rd) then Trapped(s, Rv32eRegister)
      else if rd == 0 then Trapped(s, IllegalInstruction)
      else ExecLoad(Lw, rd, Add32(Reg(s.regs, 2), CLwspImm(insn)), s, Add32(s.pc, 2)))
  {
    hide BitRange, CReg, CImm6, CAddi4spnImm, CLwImm, CLwspImm, CSwspImm, CAddi16spImm, CBranchImm, CJumpImm, Add32,
         Reg, ExecLoad;
  }

  lemma CSwspHalf(s: Arch, insn: bv32)
    requires insn & 3 == 2 && BitRange(insn, 15, 13) == 6
    ensures Execute16(s, insn) == (
      var rs2 := BitRange(insn, 6, 2);
      if !IsReg(rs2) then Trapped(s, Rv32eRegister)
      else ExecStore(Sw, Reg(s.regs, rs2), Add32(Reg(s.regs, 2), CSwspImm(insn)), s, Add32(s.pc, 2)))
  {
    hide BitRange, CReg, CImm6, CAddi4spnImm, CLwImm, CLwspImm, CSwspImm, CAddi16spImm, CBranchImm, CJumpImm, Add32,
         Reg, ExecStore;
  }

  lemma CMoveHalf(s: Arch, insn: bv32)
    requires insn & 3 == 2 && BitRange(insn, 15, 13) == 4 && BitRange(insn, 12, 12) == 0
    ensures Execute16(s, insn) == (
      var rd := BitRange(insn, 11, 7);
      var rs2 := BitRange(insn, 6, 2);
      if !IsReg(rd) || !IsReg(rs2) then Trapped(s, Rv32eRegister)
      else if rs2 != 0 then Retire(s, Add32(s.pc, 2), rd, Reg(s.regs, rs2))
      else if rd == 0 then Trapped(s, IllegalInstruction)
      else ExecJalr(0, Reg(s.regs, rd), s, Add32(s.pc, 2)))
  {
    hide BitRange, CLwspImm, CSwspImm, Reg, Add32, Retire, ExecJalr, Perform16, Alu;
    var rd, rs2 := BitRange(insn, 11, 7), BitRange(insn, 6, 2);
    FailureMeaning(s);
    if IsReg(rd) && IsReg(rs2) {
      AddToZero(s, Reg(s.regs, rs2));
      OpMeaning(s, Add, rd, 0, rs2);
      AddMeaning(Reg(s.regs, 0), Reg(s.regs, rs2));
      JalrMeaning(s, 0, rd);
    }
  }

  lemma CAddHalf(s: Arch, insn: bv32)
    requires insn & 3 == 2 && BitRange(insn, 15, 13) == 4 && BitRange(insn, 12, 12) != 0
    ensures Execute16(s, insn) == (
      var rd := BitRange(insn, 11, 7);
      var rs2 := BitRange(insn, 6, 2);
      if !IsReg(rd) || !IsReg(rs2) then Trapped(s, Rv32eRegister)
      else if rs2 != 0 then Retire(s, Add32(s.pc, 2), rd, Add32(Reg(s.regs, rd), Reg(s.regs, rs2)))
      else if rd == 0 then Trapped(s, EbreakTrap)
      else ExecJalr(1, Reg(s.regs, rd), s, Add32(s.pc, 2)))
  {
    hide BitRange, CLwspImm, CSwspImm, Reg, Add32, Retire, ExecJalr, Perform16, Alu;
    var rd, rs2 := BitRange(insn, 11, 7), BitRange(insn, 6, 2);
    FailureMeaning(s);
    EbreakMeaning(s);
    if IsReg(rd) && IsReg(rs2) {
      OpMeaning(s, Add, rd, rd, rs2);
      AddMeaning(Reg(s.regs, rd), Reg(s.regs, rs2));
      JalrMeaning(s, 1, rd);
    }
  }

  lemma FailureMeaning(s: Arch)
    ensures Perform16(s, Failure(Rv32eRegister)) == Trapped(s, Rv32eRegister)
    ensures Perform16(s, Failure(IllegalInstruction)) == Trapped(s, IllegalInstruction)
  {
    PerformFailure(s, Rv32eRegister);
    PerformFailure(s, IllegalInstruction);
  }

  lemma EbreakMeaning(s: Arch)
    ensures Perform16(s, Success(Ebreak)) == Trapped(s, EbreakTrap)
  {
  }

  lemma AddMeaning(a: bv32, b: bv32)
    ensures Alu(Add, a, b) == Add32(a, b)
  {
    hide Add32;
  }

  lemma COtherHalf(s: Arch, insn: bv32)
    requires insn == 0 || (insn & 3 == 2 && BitRange(insn, 15, 13) != 0 && BitRange(insn, 15, 13) != 2 &&
             BitRange(insn, 15, 13) != 4 && BitRange(insn, 15, 13) != 6) || insn & 3 == 3
    ensures Execute16(s, insn) == (
      if insn == 0 || insn & 3 == 3 then Trapped(s, IllegalInstruction) else Trapped(s, UnsupportedExtension))
  {
    hide BitRange, Exec;
    Funct3Parity(insn);
  }

  lemma Funct3Parity(insn: bv32)
    ensures BitRange(insn, 15, 13) < 8
    ensures BitRange(insn, 15, 13) & 1 == 1 <==> BitRange(insn, 15, 13) in {1, 3, 5, 7}
  {
  }

  lemma PerformFailure(s: Arch, cause: Cause)
    ensures Perform16(s, Failure(cause)) == Trapped(s, cause)
  {
    hide Exec;
  }

  lemma AddToZero(s: Arch, value: bv32)
    ensures Add32(Reg(s.regs, 0), value) == value && IsReg(0)
  {
  }

  lemma AddZero(value: bv32)
    ensures Add32(value, 0) == value
  {
  }
}
