/** Properties of every run: the state invariant, precise traps, and the trace as a complete log. */
module Runs {
  import opened Words
  import opened Isa
  import opened Decoder
  import opened Encoder
  import opened Compressed
  import opened Machine

  // ---------------------------------------------------------------- compressed instructions

  /** Executing a legal 16-bit instruction and executing its 32-bit expansion over two bytes leave the
      same state, trap alike and log the same effect, except that a compressed instruction that only
      writes a register with its own value logs nothing. */
  lemma CompressedMeansExpansion(s: Arch, c: bv32)
    requires Decode16(c).Success?
    ensures var short, long := Execute16(s, c), Execute32(s, Expand(c), 2);
      && (short.Done? <==> long.Done?) && (short.Trapped? <==> long.Trapped?)
      && short.arch == long.arch
      && (short.Trapped? ==> short.cause == long.cause)
      && (short.Done? ==> short.effect == if Unlogged(Decode16(c).value) then NO_EFFECT else long.effect)
      && (short.Done? && Unlogged(Decode16(c).value) ==> long.arch.regs == s.regs && long.arch.memory == s.memory)
  {
    hide Expand, Exec, Decode16, Decode32;
    ExpansionDecodesTheSame(c);
    var i := Decode16(c).value;
    if Unlogged(i) {
      UnloggedOperation(c);
      UnloggedKeepsRegisters(s, i);
    }
  }

  lemma UnloggedOperation(c: bv32)
    requires Decode16(c).Success? && Unlogged(Decode16(c).value)
    ensures Decode16(c).value.alu in {Add, Sll, Srl, Sra}
  {
    hide BitRange, CReg, CImm6, CLwImm, CLwspImm, CSwspImm, CBranchImm, CJumpImm, CAddi4spnImm, CAddi16spImm, IsReg;
  }

  lemma UnloggedKeepsRegisters(s: Arch, i: Instr)
    requires Operands(i) && Unlogged(i) && i.alu in {Add, Sll, Srl, Sra}
    ensures Exec(i, s, 2).Done? && Exec(i, s, 2).arch == s.(pc := Add32(s.pc, 2))
  {
    hide Add32, Alu, Reg, SetReg, Wrote, Exec, Retire;
    ExecOpImm(s, i.alu, i.rd, 0);
    NeutralImmediates(Reg(s.regs, i.rd));
    RetireCompletes(s, Add32(s.pc, 2), i.rd, Reg(s.regs, i.rd));
    RetireUnchanged(s, Add32(s.pc, 2), i.rd);
  }

  // ---------------------------------------------------------------- the state invariant

  predicate Even(value: bv32) {
    value & 1 == 0
  }

  /** Every stored CSR is a writable one and holds only bits it can keep. */
  ghost predicate CsrsInMask(csrs: CsrFile) {
    forall name :: name in csrs ==> WritableCsr(name.number) && CsrKeeps(name.number, csrs[name]) == csrs[name]
  }

  ghost predicate Sound(s: Arch) {
    Even(s.pc) && s.regs[0] == 0 && CsrsInMask(s.csrs)
  }

  /** The outcome keeps the invariant and is not a misaligned fetch. */
  ghost predicate SoundOutcome(o: Outcome) {
    Sound(o.arch) && (o.Trapped? ==> o.cause != InstructionMisaligned)
  }

  lemma EvenSum(a: bv32, b: bv32)
    requires Even(a) && Even(b)
    ensures Even(Add32(a, b))
  {
  }

  lemma EvenLengths(length: bv32)
    requires length == 2 || length == 4
    ensures Even(length)
  {
  }

  lemma ClearBit0Even(value: bv32)
    ensures Even(ClearBit0(value))
  {
  }

  /** What a CSR keeps once, it keeps again. */
  lemma CsrKeepsTwice(csr: bv32, value: bv32)
    requires WritableCsr(csr)
    ensures CsrKeeps(csr, CsrKeeps(csr, value)) == CsrKeeps(csr, value)
  {
    if csr == MSTATUS {
    } else if csr == MIE {
    } else if csr == MTVEC {
    } else if csr == MEPC {
    }
  }

  lemma SetCsrInMask(csrs: CsrFile, csr: bv32, value: bv32)
    requires WritableCsr(csr) && CsrsInMask(csrs)
    ensures CsrsInMask(SetCsr(csrs, csr, value))
  {
    hide CsrKeeps, WritableCsr;
    CsrKeepsTwice(csr, value);
    var updated := SetCsr(csrs, csr, value);
    forall name | name in updated
      ensures WritableCsr(name.number) && CsrKeeps(name.number, updated[name]) == updated[name]
    {
      if name != CsrName(csr) {
        assert name in csrs;
      }
    }
  }

  lemma KeptMepcEven(value: bv32)
    requires CsrKeeps(MEPC, value) == value
    ensures Even(value)
  {
  }

  lemma MepcValue(csrs: CsrFile)
    ensures CsrValue(csrs, MEPC) == if CsrName(MEPC) in csrs then csrs[CsrName(MEPC)] else 0
    ensures WritableCsr(MEPC) && Even(0)
  {
  }

  lemma MepcEven(csrs: CsrFile)
    requires CsrsInMask(csrs)
    ensures Even(CsrValue(csrs, MEPC))
  {
    hide CsrKeeps, CsrValue, WritableCsr, Even;
    MepcValue(csrs);
    if CsrName(MEPC) in csrs {
      KeptMepcEven(csrs[CsrName(MEPC)]);
    }
  }

  lemma SetRegKeepsZero(regs: RegFile, rd: bv32, value: bv32)
    requires rd < 16 && regs[0] == 0
    ensures SetReg(regs, rd, value)[0] == 0
  {
    if rd != 0 {
      IndexNotZero(rd);
    }
  }

  lemma IndexNotZero(rd: bv32)
    requires rd != 0
    ensures rd as int != 0
  {
    assert (rd as int) as bv32 == rd;
  }

  lemma RetireSound(s: Arch, next: bv32, rd: bv32, value: bv32)
    requires rd < 16 && Sound(s) && Even(next)
    ensures SoundOutcome(Retire(s, next, rd, value))
  {
    hide SetReg, Wrote, Even;
    SetRegKeepsZero(s.regs, rd, value);
  }

  /** Jumps and branches have even offsets, so their targets are even. */
  predicate EvenOffset(i: Instr) {
    (i.Jal? ==> Even(i.offset)) && (i.Branch? ==> Even(i.offset))
  }

  lemma ExecSound(i: Instr, s: Arch, length: bv32)
    requires Operands(i) && EvenOffset(i) && Sound(s) && (length == 2 || length == 4)
    ensures SoundOutcome(Exec(i, s, length))
  {
    hide Exec, Even, CsrsInMask;
    if i.Jal? || i.Jalr? || i.Branch? || i.Load? || i.Mret? || i.Csr? {
      ExecSoundControl(i, s, length);
    } else {
      ExecSoundPlain(i, s, length);
    }
  }

  lemma ExecSoundPlain(i: Instr, s: Arch, length: bv32)
    requires !(i.Jal? || i.Jalr? || i.Branch? || i.Load? || i.Mret? || i.Csr?)
    requires Operands(i) && Sound(s) && (length == 2 || length == 4)
    ensures SoundOutcome(Exec(i, s, length))
  {
    hide Add32, Reg, Alu, Retire, Even, CsrsInMask, StoreValue, StoredPart, Aligned, SetReg, Wrote;
    hide ExecCsr, ExecLoad, ExecJal, ExecJalr, ExecBranch, ExecMret;
    EvenLengths(length);
    var next := Add32(s.pc, length);
    EvenSum(s.pc, length);
    match i
    case Lui(rd, imm) => RetireSound(s, next, rd, imm);
    case Auipc(rd, imm) => RetireSound(s, next, rd, Add32(s.pc, imm));
    case OpImm(op, rd, rs1, imm) => RetireSound(s, next, rd, Alu(op, Reg(s.regs, rs1), imm));
    case Op(op, rd, rs1, rs2) => RetireSound(s, next, rd, Alu(op, Reg(s.regs, rs1), Reg(s.regs, rs2)));
    case _ =>
  }

  lemma ExecSoundControl(i: Instr, s: Arch, length: bv32)
    requires i.Jal? || i.Jalr? || i.Branch? || i.Load? || i.Mret? || i.Csr?
    requires Operands(i) && EvenOffset(i) && Sound(s) && (length == 2 || length == 4)
    ensures SoundOutcome(Exec(i, s, length))
  {
    hide Add32, Reg, Alu, Retire, Even, CsrsInMask, LoadValue, StoreValue, Taken, SetReg, Wrote, SoundOutcome;
    hide ExecCsr, ExecLoad, ExecStore, ExecJal, ExecJalr, ExecBranch, ExecMret;
    EvenLengths(length);
    var next := Add32(s.pc, length);
    EvenSum(s.pc, length);
    match i
    case Jal(rd, offset) => JalSound(rd, offset, s, next);
    case Jalr(rd, rs1, imm) => JalrSound(rd, Add32(Reg(s.regs, rs1), imm), s, next);
    case Branch(op, rs1, rs2, offset) => BranchSound(Taken(op, Reg(s.regs, rs1), Reg(s.regs, rs2)), offset, s, next);
    case Load(op, rd, rs1, imm) => LoadSound(op, rd, Add32(Reg(s.regs, rs1), imm), s, next);
    case Mret => MretSound(s);
    case Csr(op, immediate, rd, source, csr) => CsrSound(op, immediate, rd, source, csr, s, next);
  }

  lemma JalSound(rd: bv32, offset: bv32, s: Arch, next: bv32)
    requires rd < 16 && Sound(s) && Even(next) && Even(offset)
    ensures SoundOutcome(ExecJal(rd, Add32(s.pc, offset), s, next))
  {
    hide Even, Add32, CsrsInMask, Retire;
    EvenSum(s.pc, offset);
    EvenMeaning(Add32(s.pc, offset));
    RetireSound(s, Add32(s.pc, offset), rd, next);
  }

  lemma JalrSound(rd: bv32, target: bv32, s: Arch, next: bv32)
    requires rd < 16 && Sound(s)
    ensures SoundOutcome(ExecJalr(rd, target, s, next))
  {
    hide Even, CsrsInMask, Retire, ClearBit0;
    ClearBit0Even(target);
    RetireSound(s, ClearBit0(target), rd, next);
  }

  lemma BranchSound(taken: bool, offset: bv32, s: Arch, next: bv32)
    requires Sound(s) && Even(next) && Even(offset)
    ensures SoundOutcome(ExecBranch(taken, Add32(s.pc, offset), s, next))
  {
    hide Even, Add32, CsrsInMask;
    EvenSum(s.pc, offset);
    EvenMeaning(Add32(s.pc, offset));
  }

  lemma EvenMeaning(value: bv32)
    ensures Even(value) <==> value & 1 == 0
  {
  }

  lemma LoadSound(op: LoadOp, rd: bv32, address: bv32, s: Arch, next: bv32)
    requires rd < 16 && Sound(s) && Even(next)
    ensures SoundOutcome(ExecLoad(op, rd, address, s, next))
  {
    hide SetReg, Wrote, Even, Aligned, LoadValue;
    SetRegKeepsZero(s.regs, rd, LoadValue(op, s.memory, address));
  }

  lemma MretSound(s: Arch)
    requires Sound(s)
    ensures SoundOutcome(ExecMret(s))
  {
    hide Even, SetCsr, CsrsInMask, CsrValue;
    MepcEven(s.csrs);
    SetCsrInMask(s.csrs, MSTATUS, MSTATUS_MIE | MSTATUS_MPIE | MSTATUS_MPP);
    SetCsrInMask(s.csrs, MSTATUS, 0 | MSTATUS_MPIE | MSTATUS_MPP);
  }

  lemma CsrSound(op: CsrOp, immediate: bool, rd: bv32, source: bv32, csr: bv32, s: Arch, next: bv32)
    requires Sound(s) && Even(next)
    ensures SoundOutcome(ExecCsr(op, immediate, rd, source, csr, s, next))
  {
    hide Even, CommitCsr, Reg, CsrsInMask, WritableCsr, ReadOnlyCsr;
    if (WritableCsr(csr) || ReadOnlyCsr(csr)) && (immediate || source < 16) {
      CommitSound(op, if immediate then source else Reg(s.regs, source), rd, csr, s, next);
    }
  }

  lemma CommitSound(op: CsrOp, operand: bv32, rd: bv32, csr: bv32, s: Arch, next: bv32)
    requires WritableCsr(csr) || ReadOnlyCsr(csr)
    requires Sound(s) && Even(next)
    ensures SoundOutcome(CommitCsr(op, operand, rd, csr, s, next))
  {
    hide Even, Retire, CsrsInMask, SetCsr, CsrResult, CsrValue, WritableCsr, ReadOnlyCsr;
    var before := CsrValue(s.csrs, csr);
    var s' := if WritableCsr(csr) then s.(csrs := SetCsr(s.csrs, csr, CsrResult(op, before, operand))) else s;
    if WritableCsr(csr) {
      SetCsrInMask(s.csrs, csr, CsrResult(op, before, operand));
    }
    if rd < 16 {
      RetireSound(s', next, rd, before);
      RetireSound(s, next, rd, before);
    }
  }

  lemma Decode32EvenOffset(insn: bv32)
    requires Decode32(insn).Success?
    ensures EvenOffset(Decode32(insn).value)
  {
    hide BitRange, ImmI, ImmJ, ImmB, ImmS, ImmU, Even, DecodeSystem;
    JumpOffsetEven(insn);
    BranchOffsetEven(insn);
    if DecodeSystem(insn).Success? {
      SystemKinds(insn);
    }
  }

  lemma JumpOffsetEven(insn: bv32)
    ensures Even(ImmJ(insn))
  {
  }

  lemma BranchOffsetEven(insn: bv32)
    ensures Even(ImmB(insn))
  {
  }

  lemma Decode16EvenOffset(insn: bv32)
    requires Decode16(insn).Success?
    ensures EvenOffset(Decode16(insn).value)
  {
    hide BitRange, CReg, CImm6, CLwImm, CLwspImm, CSwspImm, CBranchImm, CJumpImm, CAddi4spnImm, CAddi16spImm, IsReg,
         Even, DecodeCAlu;
    CJumpOffsetEven(insn);
    CBranchOffsetEven(insn);
    if DecodeCAlu(insn).Success? {
      CAluKinds(insn);
    }
  }

  lemma SystemKinds(insn: bv32)
    requires DecodeSystem(insn).Success?
    ensures var i := DecodeSystem(insn).value; i.Csr? || i.Ecall? || i.Ebreak? || i.Wfi? || i.Mret?
  {
    hide BitRange, CsrOpOf;
  }

  lemma CAluKinds(insn: bv32)
    requires DecodeCAlu(insn).Success?
    ensures DecodeCAlu(insn).value.OpImm? || DecodeCAlu(insn).value.Op?
  {
    hide BitRange, CReg, CImm6, IsReg;
  }

  lemma CJumpOffsetEven(insn: bv32)
    ensures Even(CJumpImm(insn))
  {
  }

  lemma CBranchOffsetEven(insn: bv32)
    ensures Even(CBranchImm(insn))
  {
  }

  // ---------------------------------------------------------------- traps and the log of one instruction

  /** Apply the register write a record logs. */
  function ReplayReg(regs: RegFile, effect: Effect): RegFile {
    if effect.rd.Some? && effect.rd.value < 16 then SetReg(regs, effect.rd.value, effect.rdData) else regs
  }

  /** Apply the store a record logs, at the given width. */
  function ReplayStore(memory: Memory, effect: Effect, width: StoreOp): Memory {
    if effect.memAddr.Some? && effect.memWrite.Some?
        then StoreValue(width, memory, effect.memAddr.value, effect.memWrite.value)
    else memory
  }

  /** The operand of a CSR instruction that does not name a register above x15 for it. */
  function CsrOperand(i: Instr, regs: RegFile): bv32
    requires i.Csr? && (i.immediate || i.source < 16)
  {
    if i.immediate then i.source else Reg(regs, i.source)
  }

  /** A CSR write that takes effect before its destination above x15 is rejected. */
  predicate LateTrap(i: Instr, s: Arch) {
    && i.Csr? && i.rd >= 16 && WritableCsr(i.csr) && (i.immediate || i.source < 16)
    && Writes(i.csrOp, CsrOperand(i, s.regs))
  }

  /** What a trap of i leaves: everything as it was, but for the CSR that a late trap wrote. */
  function AfterTrap(i: Instr, s: Arch): Arch {
    if LateTrap(i, s)
    then s.(csrs := SetCsr(s.csrs, i.csr, CsrResult(i.csrOp, CsrValue(s.csrs, i.csr), CsrOperand(i, s.regs))))
    else s
  }

  /** The log accounts for every change of registers and memory, and a trap leaves this state. */
  ghost predicate Accounted(s: Arch, o: Outcome, width: StoreOp, trapped: Arch) {
    match o
    case Done(arch, effect) =>
      arch.regs == ReplayReg(s.regs, effect) && arch.memory == ReplayStore(s.memory, effect, width)
    case Asleep(arch) => arch.regs == s.regs && arch.memory == s.memory
    case Trapped(arch, cause) => arch == trapped
  }

  lemma RetireAccounted(s: Arch, next: bv32, rd: bv32, value: bv32, width: StoreOp, trapped: Arch)
    requires rd < 16
    ensures Accounted(s, Retire(s, next, rd, value), width, trapped)
  {
  }

  /** The logged part of a stored value is all that the store used. */
  lemma StoredPartSuffices(op: StoreOp, memory: Memory, address: bv32, value: bv32)
    ensures StoreValue(op, memory, address, StoredPart(op, value)) == StoreValue(op, memory, address, value)
  {
    hide LowByte;
    StoredBytes(value);
    StoreFewBytes(memory, Unsigned(address), value);
    StoreFewBytes(memory, Unsigned(address), StoredPart(op, value));
  }

  lemma StoreFewBytes(memory: Memory, address: int, value: bv32)
    ensures StoreBytes(memory, address, value, 1) == memory[address := LowByte(value)]
    ensures StoreBytes(memory, address, value, 2) ==
            memory[address := LowByte(value)][address + 1 := LowByte(value >> 8)]
  {
    hide LowByte;
    assert StoreBytes(memory, address, value, 0) == memory;
    assert ByteOf(value, 1) == ByteOf(value >> 8, 0);
  }

  lemma StoredBytes(value: bv32)
    ensures LowByte(StoredPart(Sb, value)) == LowByte(value)
    ensures LowByte(StoredPart(Sh, value)) == LowByte(value)
    ensures LowByte(StoredPart(Sh, value) >> 8) == LowByte(value >> 8)
  {
  }

  lemma LoadAccounted(op: LoadOp, rd: bv32, address: bv32, s: Arch, next: bv32, width: StoreOp)
    requires rd < 16
    ensures Accounted(s, ExecLoad(op, rd, address, s, next), width, s)
  {
    hide Aligned, LoadValue, SetReg;
    if rd == 0 {
      assert SetReg(s.regs, 0, LoadValue(op, s.memory, address)) == s.regs by {
        X0Dropped(s.regs, LoadValue(op, s.memory, address));
      }
    }
  }

  lemma X0Dropped(regs: RegFile, value: bv32)
    ensures SetReg(regs, 0, value) == regs
  {
  }

  lemma StoreAccounted(op: StoreOp, value: bv32, address: bv32, s: Arch, next: bv32)
    ensures Accounted(s, ExecStore(op, value, address, s, next), op, s)
  {
    hide Aligned, StoreValue, StoredPart;
    StoredPartSuffices(op, s.memory, address, value);
  }

  lemma CsrAccounted(i: Instr, s: Arch, next: bv32, width: StoreOp)
    requires i.Csr?
    ensures Accounted(s, ExecCsr(i.csrOp, i.immediate, i.rd, i.source, i.csr, s, next), width, AfterTrap(i, s))
  {
    hide CommitCsr, CsrOperand, Reg, WritableCsr, ReadOnlyCsr, SetCsr, CsrResult, CsrValue;
    var o := ExecCsr(i.csrOp, i.immediate, i.rd, i.source, i.csr, s, next);
    if !(WritableCsr(i.csr) || ReadOnlyCsr(i.csr)) {
      assert o == Trapped(s, IllegalInstruction) && !LateTrap(i, s);
    } else if !i.immediate && i.source >= 16 {
      assert o == Trapped(s, Rv32eRegister) && !LateTrap(i, s);
    } else {
      var operand := CsrOperand(i, s.regs);
      OperandIs(i, s.regs);
      assert o == CommitCsr(i.csrOp, operand, i.rd, i.csr, s, next);
      if i.rd < 16 {
        CommitRetires(i.csrOp, operand, i.rd, i.csr, s, next, width);
        assert !LateTrap(i, s);
      } else {
        CommitTraps(i, operand, s, next);
      }
    }
  }

  lemma OperandIs(i: Instr, regs: RegFile)
    requires i.Csr? && (i.immediate || i.source < 16)
    ensures CsrOperand(i, regs) == if i.immediate then i.source else Reg(regs, i.source)
  {
    hide Reg;
  }

  lemma NotLate(i: Instr, s: Arch)
    requires i.Csr? && (i.immediate || i.source < 16)
    requires !(WritableCsr(i.csr) && Writes(i.csrOp, CsrOperand(i, s.regs)))
    ensures AfterTrap(i, s) == s
  {
    hide SetCsr, CsrResult, CsrValue, WritableCsr, CsrOperand, Writes;
  }

  lemma Late(i: Instr, s: Arch)
    requires i.Csr? && (i.immediate || i.source < 16) && i.rd >= 16
    requires WritableCsr(i.csr) && Writes(i.csrOp, CsrOperand(i, s.regs))
    ensures AfterTrap(i, s) == s.(csrs := SetCsr(s.csrs, i.csr,
            CsrResult(i.csrOp, CsrValue(s.csrs, i.csr), CsrOperand(i, s.regs))))
  {
    hide SetCsr, CsrResult, CsrValue, WritableCsr, CsrOperand, Writes;
  }

  lemma CommitTraps(i: Instr, operand: bv32, s: Arch, next: bv32)
    requires i.Csr? && (WritableCsr(i.csr) || ReadOnlyCsr(i.csr)) && (i.immediate || i.source < 16)
    requires i.rd >= 16 && operand == CsrOperand(i, s.regs)
    ensures var o := CommitCsr(i.csrOp, operand, i.rd, i.csr, s, next); o.Trapped? && o.arch == AfterTrap(i, s)
  {
    hide SetCsr, CsrResult, CsrValue, WritableCsr, ReadOnlyCsr, CsrOperand, Retire, Writes, AfterTrap;
    if WritableCsr(i.csr) && Writes(i.csrOp, operand) {
      Late(i, s);
    } else {
      NotLate(i, s);
    }
  }

  lemma CommitRetires(op: CsrOp, operand: bv32, rd: bv32, csr: bv32, s: Arch, next: bv32, width: StoreOp)
    requires (WritableCsr(csr) || ReadOnlyCsr(csr)) && rd < 16
    ensures Accounted(s, CommitCsr(op, operand, rd, csr, s, next), width, s)
  {
    hide SetReg, Wrote, SetCsr, CsrResult, CsrValue, WritableCsr, ReadOnlyCsr, Retire;
    var before := CsrValue(s.csrs, csr);
    RetireAccounted(s, next, rd, before, width, s);
    if WritableCsr(csr) {
      var s' := s.(csrs := SetCsr(s.csrs, csr, CsrResult(op, before, operand)));
      RetireAccounted(s', next, rd, before, width, s);
      RetireDone(s', next, rd, before);
    }
  }

  /** A late trap does write the CSR, and traps for its destination. */
  lemma LateTrapWrites(i: Instr, s: Arch, length: bv32)
    requires LateTrap(i, s)
    ensures Exec(i, s, length) == Trapped(AfterTrap(i, s), Rv32eRegister)
  {
    hide SetCsr, CsrResult, CsrValue, WritableCsr, ReadOnlyCsr, Reg, Add32;
  }

  lemma RetireDone(s: Arch, next: bv32, rd: bv32, value: bv32)
    requires rd < 16
    ensures Retire(s, next, rd, value).Done?
  {
  }

  /** Every instruction is accounted for by what it logs. */
  lemma ExecAccounted(i: Instr, s: Arch, length: bv32, width: StoreOp)
    requires Operands(i) && (i.Store? ==> i.store == width)
    ensures Accounted(s, Exec(i, s, length), width, AfterTrap(i, s))
  {
    hide Exec;
    if i.Lui? || i.Auipc? || i.OpImm? || i.Op? || i.Jal? || i.Jalr? {
      ExecAccountedRetiring(i, s, length, width);
    } else {
      ExecAccountedOther(i, s, length, width);
    }
  }

  lemma ExecAccountedRetiring(i: Instr, s: Arch, length: bv32, width: StoreOp)
    requires i.Lui? || i.Auipc? || i.OpImm? || i.Op? || i.Jal? || i.Jalr?
    requires Operands(i)
    ensures Accounted(s, Exec(i, s, length), width, s)
  {
    hide Add32, Reg, Alu, Retire, ClearBit0, SetReg, ReplayReg, ReplayStore;
    hide ExecCsr, ExecLoad, ExecStore, ExecBranch, ExecMret;
    var next := Add32(s.pc, length);
    match i
    case Lui(rd, imm) => RetireAccounted(s, next, rd, imm, width, s);
    case Auipc(rd, imm) => RetireAccounted(s, next, rd, Add32(s.pc, imm), width, s);
    case Jal(rd, offset) => RetireAccounted(s, Add32(s.pc, offset), rd, next, width, s);
    case Jalr(rd, rs1, imm) => RetireAccounted(s, ClearBit0(Add32(Reg(s.regs, rs1), imm)), rd, next, width, s);
    case OpImm(op, rd, rs1, imm) => RetireAccounted(s, next, rd, Alu(op, Reg(s.regs, rs1), imm), width, s);
    case Op(op, rd, rs1, rs2) => RetireAccounted(s, next, rd, Alu(op, Reg(s.regs, rs1), Reg(s.regs, rs2)), width, s);
  }

  lemma ExecAccountedOther(i: Instr, s: Arch, length: bv32, width: StoreOp)
    requires !(i.Lui? || i.Auipc? || i.OpImm? || i.Op? || i.Jal? || i.Jalr?)
    requires Operands(i) && (i.Store? ==> i.store == width)
    ensures Accounted(s, Exec(i, s, length), width, AfterTrap(i, s))
  {
    hide Exec;
    if i.Load? || i.Store? || i.Csr? {
      ExecAccountedAccess(i, s, length, width);
    } else {
      ExecAccountedPlain(i, s, length, width);
    }
  }

  lemma ExecAccountedAccess(i: Instr, s: Arch, length: bv32, width: StoreOp)
    requires i.Load? || i.Store? || i.Csr?
    requires Operands(i) && (i.Store? ==> i.store == width)
    ensures Accounted(s, Exec(i, s, length), width, AfterTrap(i, s))
  {
    hide Add32, Reg, Alu, Taken, Retire, SetReg, StoreValue, Accounted;
    hide ExecCsr, ExecLoad, ExecStore, ExecJal, ExecJalr, ExecBranch, ExecMret, CsrValue, MretCsrs;
    var next := Add32(s.pc, length);
    match i
    case Load(op, rd, rs1, imm) => LoadAccounted(op, rd, Add32(Reg(s.regs, rs1), imm), s, next, width);
    case Store(op, rs2, rs1, imm) => StoreAccounted(op, Reg(s.regs, rs2), Add32(Reg(s.regs, rs1), imm), s, next);
    case Csr(_, _, _, _, _) => CsrAccounted(i, s, next, width);
  }

  lemma ExecAccountedPlain(i: Instr, s: Arch, length: bv32, width: StoreOp)
    requires i.Branch? || i.Fence? || i.Ecall? || i.Ebreak? || i.Wfi? || i.Mret?
    requires Operands(i)
    ensures Accounted(s, Exec(i, s, length), width, s)
  {
    hide Add32, Reg, Alu, Taken, Retire, SetReg, StoreValue;
    hide ExecCsr, ExecLoad, ExecStore, ExecJal, ExecJalr, CsrValue, MretCsrs;
  }

  // ---------------------------------------------------------------- one fetched instruction

  /** The width at which a store instruction writes memory. */
  function StoreWidth(insn: bv32, length: bv32): StoreOp {
    if length == 2 then Sw
    else match StoreOpOf(BitRange(insn, 14, 12))
      case None => Sw
      case Some(op) => op
  }

  /** What a trap of this word leaves. */
  function AfterTrapWord(s: Arch, insn: bv32, length: bv32): Arch {
    if length != 2 && Decode32(insn).Success? then AfterTrap(Decode32(insn).value, s) else s
  }

  lemma Decode32Store(insn: bv32)
    requires Decode32(insn).Success? && Decode32(insn).value.Store?
    ensures StoreOpOf(BitRange(insn, 14, 12)) == Some(Decode32(insn).value.store)
  {
    hide BitRange, ImmI, ImmJ, ImmB, ImmS, ImmU, DecodeSystem;
    if DecodeSystem(insn).Success? {
      SystemKinds(insn);
    }
  }

  lemma Decode16Store(insn: bv32)
    requires Decode16(insn).Success?
    ensures Decode16(insn).value.Store? ==> Decode16(insn).value.store == Sw
    ensures !Decode16(insn).value.Csr? && !Decode16(insn).value.Wfi?
  {
    hide BitRange, CReg, CImm6, CLwImm, CLwspImm, CSwspImm, CBranchImm, CJumpImm, CAddi4spnImm, CAddi16spImm, IsReg,
         DecodeCAlu;
    if DecodeCAlu(insn).Success? {
      CAluKinds(insn);
    }
  }

  lemma Decode32Causes(insn: bv32)
    requires Decode32(insn).Failure?
    ensures Decode32(insn).error != InstructionMisaligned
  {
    hide BitRange, ImmI, ImmJ, ImmB, ImmS, ImmU, CsrOpOf;
  }

  lemma Decode16Causes(insn: bv32)
    requires Decode16(insn).Failure?
    ensures Decode16(insn).error != InstructionMisaligned
  {
    hide BitRange, CReg, CImm6, CLwImm, CLwspImm, CSwspImm, CBranchImm, CJumpImm, CAddi4spnImm, CAddi16spImm, IsReg;
  }

  lemma ExecuteAccounted(s: Arch, insn: bv32, length: bv32)
    ensures Accounted(s, Execute(s, insn, length), StoreWidth(insn, length), AfterTrapWord(s, insn, length))
  {
    hide Execute16, Execute32, Accounted, Decode32, BitRange;
    if length == 2 {
      Execute16Accounted(s, insn);
    } else {
      Execute32Accounted(s, insn, length);
    }
  }

  /** A trap touches nothing but the CSRs, and those only in a word that is a CSR access. */
  lemma TrapsTouchNoRegister(s: Arch, insn: bv32, length: bv32)
    requires Execute(s, insn, length).Trapped?
    ensures var after := Execute(s, insn, length).arch;
            && after == s.(csrs := after.csrs)
            && (after != s ==>
                length != 2 && Decode32(insn).Success? && Decode32(insn).value.Csr? && Decode32(insn).value.rd >= 16)
  {
    hide Decode32, Execute, SetCsr, CsrResult, CsrValue, WritableCsr, StoreWidth;
    ExecuteAccounted(s, insn, length);
  }

  lemma Execute32Accounted(s: Arch, insn: bv32, length: bv32)
    requires length != 2
    ensures Accounted(s, Execute32(s, insn, length), StoreWidth(insn, length), AfterTrapWord(s, insn, length))
  {
    hide Exec, Decode32, BitRange, StoreOpOf, ReplayReg, ReplayStore;
    if Decode32(insn).Success? {
      var i := Decode32(insn).value;
      if i.Store? {
        Decode32Store(insn);
      }
      ExecAccounted(i, s, length, StoreWidth(insn, length));
    }
  }

  lemma Execute16Accounted(s: Arch, insn: bv32)
    ensures Accounted(s, Execute16(s, insn), Sw, s)
  {
    hide Exec, Decode16, Add32;
    if Decode16(insn).Success? {
      var i := Decode16(insn).value;
      Decode16Store(insn);
      ExecAccounted(i, s, 2, Sw);
      if Unlogged(i) {
        UnloggedOperation(insn);
        UnloggedKeepsRegisters(s, i);
      }
    }
  }

  /** Traps are not all precise: csrrwi x16, mscratch, 5 traps for its destination and leaves
      the 5 in mscratch. */
  lemma LateTrapWitness(s: Arch)
    requires CsrValue(s.csrs, MSCRATCH) == 0
    ensures Execute(s, 0x3402_D873, 4) == Trapped(s.(csrs := s.csrs[CsrName(MSCRATCH) := 5]), Rv32eRegister)
    ensures CsrValue(s.csrs[CsrName(MSCRATCH) := 5], MSCRATCH) != CsrValue(s.csrs, MSCRATCH)
  {
    hide Decode32, Exec;
    var i := Csr(ReadWrite, true, 16, 5, MSCRATCH);
    assert Encode32(i) == 0x3402_D873;
    DecodeEncode(i);
    LateTrapWrites(i, s, 4);
  }

  lemma ExecuteSound(s: Arch, insn: bv32, length: bv32)
    requires Sound(s) && (length == 2 || length == 4)
    ensures SoundOutcome(Execute(s, insn, length))
  {
    hide Exec, Decode16, Decode32, Even, CsrsInMask;
    if length == 2 {
      if Decode16(insn).Success? {
        Decode16EvenOffset(insn);
        ExecSound(Decode16(insn).value, s, 2);
      } else {
        Decode16Causes(insn);
      }
    } else {
      if Decode32(insn).Success? {
        Decode32EvenOffset(insn);
        ExecSound(Decode32(insn).value, s, 4);
      } else {
        Decode32Causes(insn);
      }
    }
  }

  /** Only the word 0x10500073, read as four bytes, puts the machine to sleep. */
  lemma AsleepOnlyOnWfi(s: Arch, insn: bv32, length: bv32)
    ensures Execute(s, insn, length).Asleep? <==> length != 2 && insn == 0x1050_0073
  {
    if length == 2 {
      Execute16NeverSleeps(s, insn);
    } else {
      WfiWord(s, length);
      if Execute32(s, insn, length).Asleep? {
        AsleepIsWfi(s, insn, length);
        EncodeDecode(insn);
      }
    }
    hide Execute16, Execute32, Decode32, Encode32;
  }

  lemma AsleepIsWfi(s: Arch, insn: bv32, length: bv32)
    requires Execute32(s, insn, length).Asleep?
    ensures Decode32(insn) == Success(Wfi)
  {
    hide Decode32, Add32, Reg, Alu, Taken, SetReg, StoreValue, LoadValue, Aligned, CsrValue, MretCsrs, SetCsr,
         CsrResult;
    hide WritableCsr, ReadOnlyCsr;
  }

  lemma Execute16NeverSleeps(s: Arch, insn: bv32)
    ensures !Execute16(s, insn).Asleep?
  {
    hide Decode16, Add32, Reg, Alu, Taken, SetReg, StoreValue, LoadValue, Aligned, CsrValue, MretCsrs, SetCsr,
         CsrResult;
    hide WritableCsr, ReadOnlyCsr;
    if Decode16(insn).Success? {
      Decode16Store(insn);
    }
  }
}
