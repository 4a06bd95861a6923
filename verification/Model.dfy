/** The reference model itself: an object whose methods update its fields in place,
    each method tied to the function that says what it must compute. A Python
    exception is a Failure result. */
module Model {
  import opened Words
  import opened Isa
  import opened Decoder
  import opened Machine

  class Rv32ecModel {
    var pc: bv32
    var memory: Memory
    var regs: RegFile
    var cycle: nat
    var halted: bool
    var sleeping: bool
    var trace: seq<Record>
    var csrs: CsrFile

    ghost function State(): Arch
      reads this
    {
      Arch(pc, regs, memory, csrs)
    }

    ghost function Abstract(): Machine
      reads this
    {
      Machine(State(), halted, sleeping, cycle, trace)
    }

    constructor (pc: bv32)
      ensures Abstract() == Machine(Arch(pc, seq(16, _ => 0), map[], map[]), false, false, 0, [])
    {
      this.pc := pc;
      memory := map[];
      regs := seq(16, _ => 0);
      cycle := 0;
      halted := false;
      sleeping := false;
      trace := [];
      csrs := map[];
    }

    // -------------------------------------------------------------- memory

    method StoreU32Raw(address: int, value: bv32)
      modifies `memory
      ensures memory == StoreBytes(old(memory), address, value, 4)
    {
      for offset := 0 to 4
        invariant memory == StoreBytes(old(memory), address, value, offset)
      {
        memory := memory[address + offset := ByteOf(value, offset)];
      }
    }

    method LoadImage(words: seq<bv32>, base: int)
      modifies `memory
      ensures memory == LoadWords(old(memory), base, words)
    {
      var addr := base;
      for k := 0 to |words|
        invariant LoadWords(old(memory), base, words) == LoadWords(memory, addr, words[k..])
      {
        StoreU32Raw(addr, words[k]);
        addr := addr + 4;
        assert words[k..][1..] == words[k + 1..];
      }
    }

    method LoadData(address: bv32, op: LoadOp) returns (r: Result<bv32, Cause>)
      ensures r == if Aligned(address, LoadSize(op)) then Success(LoadValue(op, memory, address))
              else Failure(LoadMisaligned)
    {
      var size := LoadSize(op);
      if size == 2 && address & 1 != 0 {
        return Failure(LoadMisaligned);
      }
      if size == 4 && address & 3 != 0 {
        return Failure(LoadMisaligned);
      }
      var a := Unsigned(address);
      if size == 1 {
        var value := Byte(memory, a);
        return Success(if op == Lb then Sext(value, 8) else value);
      }
      if size == 2 {
        var value := HalfWord(memory, a);
        return Success(if op == Lh then Sext(value, 16) else value);
      }
      return Success(Word(memory, a));
    }

    method StoreData(address: bv32, op: StoreOp, value: bv32) returns (r: Result<(), Cause>)
      modifies `memory
      ensures !Aligned(address, StoreSize(op)) ==> r == Failure(StoreMisaligned) && memory == old(memory)
      ensures Aligned(address, StoreSize(op)) ==>
              r == Success(()) && memory == StoreValue(op, old(memory), address, value)
    {
      var size := StoreSize(op);
      if size == 2 && address & 1 != 0 {
        return Failure(StoreMisaligned);
      }
      if size == 4 && address & 3 != 0 {
        return Failure(StoreMisaligned);
      }
      for offset := 0 to size
        invariant memory == StoreBytes(old(memory), Unsigned(address), value, offset)
      {
        memory := memory[Unsigned(address) + offset := ByteOf(value, offset)];
      }
      return Success(());
    }

    // -------------------------------------------------------------- registers

    method RequireRv32eReg(index: bv32) returns (r: Result<(), Cause>)
      ensures r == if index < 16 then Success(()) else Failure(Rv32eRegister)
    {
      return if index > 15 then Failure(Rv32eRegister) else Success(());
    }

    method ReadReg(index: bv32) returns (r: Result<bv32, Cause>)
      ensures r == if index < 16 then Success(Reg(regs, index)) else Failure(Rv32eRegister)
    {
      var _ :- RequireRv32eReg(index);
      if index == 0 {
        return Success(0);
      }
      return Success(regs[index as int]);
    }

    /** write_reg once its index has been checked. */
    method PutReg(index: bv32, value: bv32) returns (effect: Effect)
      requires index < 16
      modifies `regs
      ensures effect == Wrote(index, value) && regs == SetReg(old(regs), index, value)
    {
      if index != 0 {
        regs := regs[index as int := value];
        return NO_EFFECT.(rd := Some(index), rdData := value);
      }
      return NO_EFFECT;
    }

    method WriteReg(index: bv32, value: bv32) returns (r: Result<Effect, Cause>)
      modifies `regs
      ensures index >= 16 ==> r == Failure(Rv32eRegister) && regs == old(regs)
      ensures index < 16 ==> r == Success(Wrote(index, value)) && regs == SetReg(old(regs), index, value)
    {
      var _ :- RequireRv32eReg(index);
      var effect := PutReg(index, value);
      return Success(effect);
    }

    // -------------------------------------------------------------- CSRs

    method ReadCsr(csr: bv32) returns (r: Result<bv32, Cause>)
      ensures r == if WritableCsr(csr) || ReadOnlyCsr(csr) then Success(CsrValue(csrs, csr))
              else Failure(IllegalInstruction)
    {
      if csr == MISA {
        return Success(MISA_RV32EC);
      }
      if csr == MIP || csr == MVENDORID || csr == MARCHID || csr == MIMPID || csr == MHARTID {
        return Success(0);
      }
      if WritableCsr(csr) {
        return Success(if CsrName(csr) in csrs then csrs[CsrName(csr)] else 0);
      }
      return Failure(IllegalInstruction);
    }

    method WriteCsr(csr: bv32, value: bv32) returns (r: Result<(), Cause>)
      modifies `csrs
      ensures WritableCsr(csr) ==> r == Success(()) && csrs == SetCsr(old(csrs), csr, value)
      ensures !WritableCsr(csr) ==> r == Failure(IllegalInstruction) && csrs == old(csrs)
    {
      if ReadOnlyCsr(csr) {
        return Failure(IllegalInstruction);
      }
      if csr == MSTATUS {
        csrs := csrs[CsrName(csr) := value & MSTATUS_BITS];
      } else if csr == MIE {
        csrs := csrs[CsrName(csr) := value & MIE_BITS];
      } else if csr == MTVEC {
        csrs := csrs[CsrName(csr) := value & MTVEC_BITS];
      } else if csr == MEPC {
        csrs := csrs[CsrName(csr) := value & MEPC_BITS];
      } else if csr == MSCRATCH || csr == MCAUSE || csr == MTVAL {
        csrs := csrs[CsrName(csr) := value];
      } else {
        return Failure(IllegalInstruction);
      }
      return Success(());
    }

    // -------------------------------------------------------------- 32-bit instructions

    /** The object and the result are as `outcome` says; the trace record names the instruction. */
    ghost predicate Completes(outcome: Outcome, r: Result<Record, Cause>, slept: bool, pc0: bv32, insn: bv32,
                              length: bv32)
      reads this
    {
      match outcome
      case Done(arch, effect) =>
        State() == arch && sleeping == slept && r == Success(Record(cycle, pc0, insn, length, effect, None))
      case Asleep(arch) =>
        State() == arch && sleeping && r == Success(Record(cycle, pc0, insn, length, NO_EFFECT, None))
      case Trapped(arch, cause) => State() == arch && sleeping == slept && r == Failure(cause)
    }

    method ExecuteUpper(insn: bv32, length: bv32) returns (r: Result<Record, Cause>)
      requires insn & 0x7F == 0x37 || insn & 0x7F == 0x17
      modifies `pc, `regs
      ensures Completes(Execute32(old(State()), insn, length), r, old(sleeping), old(pc), insn, length)
    {
      hide Execute32, Add32, BitRange, SetReg, Reg, Wrote, ImmI, ImmJ, ImmB, ImmS, ImmU;
      if insn & 0x7F == 0x37 { LuiWord(State(), insn, length); } else { AuipcWord(State(), insn, length); }
      var rd := BitRange(insn, 11, 7);
      var nextPc := Add32(pc, length);
      var effect: Effect;
      if insn & 0x7F == 0x37 {
        var _ :- RequireRv32eReg(rd);
        effect := PutReg(rd, ImmU(insn));
      } else {
        var _ :- RequireRv32eReg(rd);
        effect := PutReg(rd, Add32(pc, ImmU(insn)));
      }
      r := Success(Record(cycle, pc, insn, length, effect, None));
      pc := nextPc;
    }

    method ExecuteJal(insn: bv32, length: bv32) returns (r: Result<Record, Cause>)
      requires insn & 0x7F == 0x6F
      modifies `pc, `regs
      ensures Completes(Execute32(old(State()), insn, length), r, old(sleeping), old(pc), insn, length)
    {
      hide Execute32, Add32, BitRange, SetReg, Reg, Wrote, ImmI, ImmJ, ImmB, ImmS, ImmU;
      JalWord(State(), insn, length);
      var rd := BitRange(insn, 11, 7);
      var _ :- RequireRv32eReg(rd);
      var nextPc := Add32(pc, ImmJ(insn));
      if nextPc & 1 != 0 {
        return Failure(InstructionMisaligned);
      }
      var effect := PutReg(rd, Add32(pc, length));
      r := Success(Record(cycle, pc, insn, length, effect, None));
      pc := nextPc;
    }

    method ExecuteJalr(insn: bv32, length: bv32) returns (r: Result<Record, Cause>)
      requires insn & 0x7F == 0x67
      modifies `pc, `regs
      ensures Completes(Execute32(old(State()), insn, length), r, old(sleeping), old(pc), insn, length)
    {
      hide Execute32, Add32, BitRange, SetReg, Reg, Wrote, ImmI, ImmJ, ImmB, ImmS, ImmU, ClearBit0;
      JalrWord(State(), insn, length);
      var rd := BitRange(insn, 11, 7);
      var rs1 := BitRange(insn, 19, 15);
      if BitRange(insn, 14, 12) != 0 {
        return Failure(IllegalInstruction);
      }
      var _ :- RequireRv32eReg(rd);
      var _ :- RequireRv32eReg(rs1);
      var base := Reg(regs, rs1);
      var nextPc := ClearBit0(Add32(base, ImmI(insn)));
      var effect := PutReg(rd, Add32(pc, length));
      r := Success(Record(cycle, pc, insn, length, effect, None));
      pc := nextPc;
    }

    method ExecuteBranch(insn: bv32, length: bv32) returns (r: Result<Record, Cause>)
      requires insn & 0x7F == 0x63
      modifies `pc
      ensures Completes(Execute32(old(State()), insn, length), r, old(sleeping), old(pc), insn, length)
    {
      hide Execute32, Add32, BitRange, SetReg, Reg, Wrote, ImmI, ImmJ, ImmB, ImmS, ImmU, BranchOpOf, Taken;
      BranchWord(State(), insn, length);
      var rs1 := BitRange(insn, 19, 15);
      var rs2 := BitRange(insn, 24, 20);
      var nextPc := Add32(pc, length);
      var _ :- RequireRv32eReg(rs1);
      var _ :- RequireRv32eReg(rs2);
      var lhs := Reg(regs, rs1);
      var rhs := Reg(regs, rs2);
      var taken :- BranchTaken(BitRange(insn, 14, 12), lhs, rhs);
      if taken {
        nextPc := Add32(pc, ImmB(insn));
        if nextPc & 1 != 0 {
          return Failure(InstructionMisaligned);
        }
      }
      r := Success(Record(cycle, pc, insn, length, NO_EFFECT, None));
      pc := nextPc;
    }

    method BranchTaken(funct3: bv32, lhs: bv32, rhs: bv32) returns (r: Result<bool, Cause>)
      ensures r == match BranchOpOf(funct3)
        case None => Failure(IllegalInstruction)
        case Some(op) => Success(Taken(op, lhs, rhs))
    {
      if funct3 == 0 {
        return Success(lhs == rhs);
      } else if funct3 == 1 {
        return Success(lhs != rhs);
      } else if funct3 == 4 {
        return Success(SignedLess(lhs, rhs));
      } else if funct3 == 5 {
        return Success(!SignedLess(lhs, rhs));
      } else if funct3 == 6 {
        return Success(lhs < rhs);
      } else if funct3 == 7 {
        return Success(lhs >= rhs);
      }
      return Failure(IllegalInstruction);
    }

    method ExecuteLoadInsn(insn: bv32, length: bv32) returns (r: Result<Record, Cause>)
      requires insn & 0x7F == 0x03
      modifies `pc, `regs
      ensures Completes(Execute32(old(State()), insn, length), r, old(sleeping), old(pc), insn, length)
    {
      hide Execute32, Add32, BitRange, SetReg, Reg, Wrote, ImmI, ImmJ, ImmB, ImmS, ImmU, LoadOpOf, LoadValue, Aligned;
      LoadWord(State(), insn, length);
      var rd := BitRange(insn, 11, 7);
      var rs1 := BitRange(insn, 19, 15);
      var nextPc := Add32(pc, length);
      var _ :- RequireRv32eReg(rd);
      var _ :- RequireRv32eReg(rs1);
      var base := Reg(regs, rs1);
      var addr := Add32(base, ImmI(insn));
      var kind :- LoadKind(BitRange(insn, 14, 12));
      var value :- LoadData(addr, kind);
      var effect := PutReg(rd, value);
      r := Success(Record(cycle, pc, insn, length, effect.(memAddr := Some(addr), memRead := Some(value)), None));
      pc := nextPc;
    }

    method LoadKind(funct3: bv32) returns (r: Result<LoadOp, Cause>)
      ensures r == match LoadOpOf(funct3) case None => Failure(IllegalInstruction) case Some(op) => Success(op)
    {
      if funct3 == 0 {
        return Success(Lb);
      } else if funct3 == 1 {
        return Success(Lh);
      } else if funct3 == 2 {
        return Success(Lw);
      } else if funct3 == 4 {
        return Success(Lbu);
      } else if funct3 == 5 {
        return Success(Lhu);
      }
      return Failure(IllegalInstruction);
    }

    method ExecuteStoreInsn(insn: bv32, length: bv32) returns (r: Result<Record, Cause>)
      requires insn & 0x7F == 0x23
      modifies `pc, `memory
      ensures Completes(Execute32(old(State()), insn, length), r, old(sleeping), old(pc), insn, length)
    {
      hide Execute32, Add32, BitRange, SetReg, Reg, Wrote, ImmI, ImmJ, ImmB, ImmS, ImmU, StoreOpOf, StoreValue,
           StoredPart, Aligned;
      StoreWord(State(), insn, length);
      var rs1 := BitRange(insn, 19, 15);
      var rs2 := BitRange(insn, 24, 20);
      var nextPc := Add32(pc, length);
      var _ :- RequireRv32eReg(rs1);
      var _ :- RequireRv32eReg(rs2);
      var base := Reg(regs, rs1);
      var addr := Add32(base, ImmS(insn));
      var kind :- StoreKind(BitRange(insn, 14, 12));
      var value := Reg(regs, rs2);
      var _ :- StoreData(addr, kind, value);
      var effect := NO_EFFECT.(memAddr := Some(addr), memWrite := Some(StoredPart(kind, value)));
      r := Success(Record(cycle, pc, insn, length, effect, None));
      pc := nextPc;
    }

    method StoreKind(funct3: bv32) returns (r: Result<StoreOp, Cause>)
      ensures r == match StoreOpOf(funct3) case None => Failure(IllegalInstruction) case Some(op) => Success(op)
    {
      if funct3 == 0 {
        return Success(Sb);
      } else if funct3 == 1 {
        return Success(Sh);
      } else if funct3 == 2 {
        return Success(Sw);
      }
      return Failure(IllegalInstruction);
    }

    method ExecuteOpImm(insn: bv32, length: bv32) returns (r: Result<Record, Cause>)
      requires insn & 0x7F == 0x13
      modifies `pc, `regs
      ensures Completes(Execute32(old(State()), insn, length), r, old(sleeping), old(pc), insn, length)
    {
      hide Execute32, Add32, BitRange, SetReg, Reg, Wrote, ImmI, ImmJ, ImmB, ImmS, ImmU, OpImmOf, Operand2, Alu;
      FieldRange5(insn);
      OpImmWord(State(), insn, length);
      var rd := BitRange(insn, 11, 7);
      var rs1 := BitRange(insn, 19, 15);
      var nextPc := Add32(pc, length);
      var _ :- RequireRv32eReg(rd);
      var _ :- RequireRv32eReg(rs1);
      var lhs := Reg(regs, rs1);
      var result :- ImmediateResult(BitRange(insn, 14, 12), BitRange(insn, 31, 25), lhs, ImmI(insn),
          BitRange(insn, 24, 20));
      var effect := PutReg(rd, result);
      r := Success(Record(cycle, pc, insn, length, effect, None));
      pc := nextPc;
    }

    method ImmediateResult(funct3: bv32, funct7: bv32, lhs: bv32, imm: bv32, shamt: bv32)
      returns (r: Result<bv32, Cause>)
      requires shamt < 32
      ensures r == match OpImmOf(funct3, funct7)
        case None => Failure(IllegalInstruction)
        case Some(op) => Success(Alu(op, lhs, Operand2(op, imm, shamt)))
    {
      hide Alu, Add32, And32, Or32, Xor32, ShiftLeft, ShiftRight, ShiftRightArithmetic, SignedLess;
      AluPlain(lhs, imm);
      AluShift(lhs, shamt);
      if funct3 == 0 {
        return Success(Add32(lhs, imm));
      } else if funct3 == 2 {
        return Success(if SignedLess(lhs, imm) then 1 else 0);
      } else if funct3 == 3 {
        return Success(if lhs < imm then 1 else 0);
      } else if funct3 == 4 {
        return Success(Xor32(lhs, imm));
      } else if funct3 == 6 {
        return Success(Or32(lhs, imm));
      } else if funct3 == 7 {
        return Success(And32(lhs, imm));
      } else if funct3 == 1 {
        if funct7 != 0 {
          return Failure(IllegalInstruction);
        }
        return Success(ShiftLeft(lhs, shamt));
      } else if funct3 == 5 {
        if funct7 == 0 {
          return Success(ShiftRight(lhs, shamt));
        } else if funct7 == 0x20 {
          return Success(ShiftRightArithmetic(lhs, shamt));
        }
      }
      return Failure(IllegalInstruction);
    }

    method ExecuteOp(insn: bv32, length: bv32) returns (r: Result<Record, Cause>)
      requires insn & 0x7F == 0x33
      modifies `pc, `regs
      ensures Completes(Execute32(old(State()), insn, length), r, old(sleeping), old(pc), insn, length)
    {
      hide Execute32, Add32, BitRange, SetReg, Reg, Wrote, ImmI, ImmJ, ImmB, ImmS, ImmU, OpOf, Alu;
      OpWord(State(), insn, length);
      var rd := BitRange(insn, 11, 7);
      var rs1 := BitRange(insn, 19, 15);
      var rs2 := BitRange(insn, 24, 20);
      var nextPc := Add32(pc, length);
      var _ :- RequireRv32eReg(rd);
      var _ :- RequireRv32eReg(rs1);
      var _ :- RequireRv32eReg(rs2);
      var lhs := Reg(regs, rs1);
      var rhs := Reg(regs, rs2);
      var result :- RegisterResult(BitRange(insn, 14, 12), BitRange(insn, 31, 25), lhs, rhs);
      var effect := PutReg(rd, result);
      r := Success(Record(cycle, pc, insn, length, effect, None));
      pc := nextPc;
    }

    method RegisterResult(funct3: bv32, funct7: bv32, lhs: bv32, rhs: bv32) returns (r: Result<bv32, Cause>)
      ensures r == match OpOf(funct3, funct7)
        case None => Failure(IllegalInstruction)
        case Some(op) => Success(Alu(op, lhs, rhs))
    {
      hide Add32, Sub32, And32, Or32, Xor32, ShiftLeft, ShiftRight, ShiftRightArithmetic, SignedLess;
      var shamt := rhs & 0x1F;
      if funct3 == 0 && funct7 == 0 {
        return Success(Add32(lhs, rhs));
      } else if funct3 == 0 && funct7 == 0x20 {
        return Success(Sub32(lhs, rhs));
      } else if funct3 == 1 && funct7 == 0 {
        return Success(ShiftLeft(lhs, shamt));
      } else if funct3 == 2 && funct7 == 0 {
        return Success(if SignedLess(lhs, rhs) then 1 else 0);
      } else if funct3 == 3 && funct7 == 0 {
        return Success(if lhs < rhs then 1 else 0);
      } else if funct3 == 4 && funct7 == 0 {
        return Success(Xor32(lhs, rhs));
      } else if funct3 == 5 && funct7 == 0 {
        return Success(ShiftRight(lhs, shamt));
      } else if funct3 == 5 && funct7 == 0x20 {
        return Success(ShiftRightArithmetic(lhs, shamt));
      } else if funct3 == 6 && funct7 == 0 {
        return Success(Or32(lhs, rhs));
      } else if funct3 == 7 && funct7 == 0 {
        return Success(And32(lhs, rhs));
      }
      return Failure(IllegalInstruction);
    }

    method ExecuteMret(insn: bv32, length: bv32) returns (r: Result<Record, Cause>)
      requires insn == 0x3020_0073
      modifies `pc, `csrs
      ensures Completes(Execute32(old(State()), insn, length), r, old(sleeping), old(pc), insn, length)
    {
      hide Execute32, SetCsr;
      MretWord(State(), length);
      r := Success(Record(cycle, pc, insn, length, NO_EFFECT, None));
      var target := ReadCsr(MEPC);
      pc := target.value;
      var mstatus := ReadCsr(MSTATUS);
      var mie := if mstatus.value & MSTATUS_MPIE != 0 then MSTATUS_MIE else 0;
      var _ := WriteCsr(MSTATUS, mie | MSTATUS_MPIE | MSTATUS_MPP);
    }

    method AccessCsr(op: CsrOp, immediate: bool, rd: bv32, rs1: bv32, csr: bv32, insn: bv32, length: bv32)
      returns (r: Result<Record, Cause>)
      modifies `pc, `regs, `csrs
      ensures Completes(ExecCsr(op, immediate, rd, rs1, csr, old(State()), Add32(old(pc), length)), r,
                        old(sleeping), old(pc), insn, length)
    {
      hide Add32, Reg, CsrValue, CommitCsr, WritableCsr, ReadOnlyCsr;
      var before :- ReadCsr(csr);
      var operand := rs1;
      if !immediate {
        operand :- ReadReg(rs1);
      }
      r := FinishCsr(op, before, operand, rd, csr, insn, length);
    }

    /** The CSR write, if the operand's value calls for one, precedes the check of rd. */
    method FinishCsr(op: CsrOp, before: bv32, operand: bv32, rd: bv32, csr: bv32, insn: bv32, length: bv32)
      returns (r: Result<Record, Cause>)
      requires (WritableCsr(csr) || ReadOnlyCsr(csr)) && before == CsrValue(csrs, csr)
      modifies `pc, `regs, `csrs
      ensures Completes(CommitCsr(op, operand, rd, csr, old(State()), Add32(old(pc), length)), r,
                        old(sleeping), old(pc), insn, length)
    {
      hide Add32, SetReg, Wrote, SetCsr, CsrValue, CsrResult, WritableCsr, ReadOnlyCsr;
      var after := CsrResult(op, before, operand);
      if op == ReadWrite || operand != 0 {
        var _ :- WriteCsr(csr, after);
      }
      var effect :- WriteReg(rd, before);
      r := Success(Record(cycle, pc, insn, length, effect, None));
      pc := Add32(pc, length);
    }

    method ExecuteCsr(insn: bv32, length: bv32) returns (r: Result<Record, Cause>)
      requires insn & 0x7F == 0x73 && !FixedWord(insn)
      modifies `pc, `regs, `csrs
      ensures Completes(Execute32(old(State()), insn, length), r, old(sleeping), old(pc), insn, length)
    {
      hide Execute32, Add32, BitRange, ExecCsr, CsrOpOf;
      CsrWord(State(), insn, length);
      FieldRange3(insn);
      var funct3 := BitRange(insn, 14, 12);
      CsrFunct3(funct3);
      if funct3 == 0 || funct3 == 4 {
        return Failure(IllegalInstruction);
      }
      var op := if funct3 == 1 || funct3 == 5 then ReadWrite else if funct3 == 2 || funct3 == 6 then ReadSet
          else ReadClear;
      r := AccessCsr(op, funct3 & 4 != 0, BitRange(insn, 11, 7), BitRange(insn, 19, 15), BitRange(insn, 31, 20), insn,
          length);
    }

    method ExecuteSystem(insn: bv32, length: bv32) returns (r: Result<Record, Cause>)
      requires insn & 0x7F == 0x73
      modifies `pc, `regs, `csrs, `sleeping
      ensures Completes(Execute32(old(State()), insn, length), r, old(sleeping), old(pc), insn, length)
    {
      hide Execute32, Add32, BitRange, ExecMret;
      EcallWord(State(), length);
      EbreakWord(State(), length);
      WfiWord(State(), length);
      if insn == 0x0000_0073 {
        return Failure(EcallTrap);
      }
      if insn == 0x0010_0073 {
        return Failure(EbreakTrap);
      }
      if insn == 0x1050_0073 {
        r := Success(Record(cycle, pc, insn, length, NO_EFFECT, None));
        pc := Add32(pc, length);
        sleeping := true;
        return;
      }
      if insn == 0x3020_0073 {
        r := ExecuteMret(insn, length);
        return;
      }
      r := ExecuteCsr(insn, length);
    }

    method ExecuteWord(insn: bv32, length: bv32) returns (r: Result<Record, Cause>)
      modifies `pc, `regs, `memory, `csrs, `sleeping
      ensures Completes(Execute32(old(State()), insn, length), r, old(sleeping), old(pc), insn, length)
    {
      hide Execute32, Add32, BitRange;
      OtherWords(State(), insn, length);
      var opcode := insn & 0x7F;
      var funct3 := BitRange(insn, 14, 12);
      if opcode == 0x37 || opcode == 0x17 {
        r := ExecuteUpper(insn, length);
      } else if opcode == 0x6F {
        r := ExecuteJal(insn, length);
      } else if opcode == 0x67 {
        r := ExecuteJalr(insn, length);
      } else if opcode == 0x63 {
        r := ExecuteBranch(insn, length);
      } else if opcode == 0x03 {
        r := ExecuteLoadInsn(insn, length);
      } else if opcode == 0x23 {
        r := ExecuteStoreInsn(insn, length);
      } else if opcode == 0x13 {
        r := ExecuteOpImm(insn, length);
      } else if opcode == 0x33 {
        r := ExecuteOp(insn, length);
      } else if opcode == 0x0F {
        if funct3 != 0 {
          return Failure(IllegalInstruction);
        }
        r := Success(Record(cycle, pc, insn, length, NO_EFFECT, None));
        pc := Add32(pc, length);
      } else if opcode == 0x73 {
        r := ExecuteSystem(insn, length);
      } else {
        return Failure(IllegalInstruction);
      }
    }

    // -------------------------------------------------------------- 16-bit instructions

    method CompressedQuadrant0(insn: bv32) returns (r: Result<Record, Cause>)
      requires insn != 0 && insn & 3 == 0
      modifies `pc, `regs, `memory
      ensures Completes(Execute16(old(State()), insn), r, old(sleeping), old(pc), insn, 2)
    {
      hide Execute16, BitRange, CReg, CImm6, CAddi4spnImm, CLwImm, CLwspImm, CSwspImm, CAddi16spImm, CBranchImm;
      hide CJumpImm, Add32, Reg, SetReg, Wrote, Aligned, LoadValue, StoreValue, ExecLoad, ExecStore, Retire;
      Quadrant0Half(State(), insn);
      CRegRange(insn);
      var funct3 := BitRange(insn, 15, 13);
      if funct3 == 0 {
        r := CompressedAddi4spn(insn);
      } else if funct3 == 2 {
        r := CompressedLw(insn);
      } else if funct3 == 6 {
        r := CompressedSw(insn);
      } else if funct3 & 1 == 1 {
        r := Failure(UnsupportedExtension);
      } else {
        r := Failure(IllegalInstruction);
      }
    }

    method CompressedAddi4spn(insn: bv32) returns (r: Result<Record, Cause>)
      requires insn != 0 && insn & 3 == 0 && BitRange(insn, 15, 13) == 0
      modifies `pc, `regs, `memory
      ensures Completes(Execute16(old(State()), insn), r, old(sleeping), old(pc), insn, 2)
    {
      hide Execute16, BitRange, CReg, CImm6, CAddi4spnImm, CLwImm, CLwspImm, CSwspImm, CAddi16spImm, CBranchImm;
      hide CJumpImm, Add32, Reg, SetReg, Wrote, Aligned, LoadValue, StoreValue;
      Quadrant0Half(State(), insn);
      CRegRange(insn);
      var imm := CAddi4spnImm(insn);
      if imm == 0 {
        return Failure(IllegalInstruction);
      }
      var effect := PutReg(CReg(BitRange(insn, 4, 2)), Add32(Reg(regs, 2), imm));
      r := Success(Record(cycle, pc, insn, 2, effect, None));
      pc := Add32(pc, 2);
    }

    method CompressedLw(insn: bv32) returns (r: Result<Record, Cause>)
      requires insn & 3 == 0 && BitRange(insn, 15, 13) == 2
      modifies `pc, `regs, `memory
      ensures insn != 0 && Completes(Execute16(old(State()), insn), r, old(sleeping), old(pc), insn, 2)
    {
      hide Execute16, BitRange, CReg, CImm6, CAddi4spnImm, CLwImm, CLwspImm, CSwspImm, CAddi16spImm, CBranchImm;
      hide CJumpImm, Add32, Reg, SetReg, Wrote, Aligned, LoadValue, StoreValue;
      NonzeroFunction(insn);
      Quadrant0Half(State(), insn);
      CRegRange(insn);
      var addr := Add32(Reg(regs, CReg(BitRange(insn, 9, 7))), CLwImm(insn));
      var value :- LoadData(addr, Lw);
      var effect := PutReg(CReg(BitRange(insn, 4, 2)), value);
      effect := effect.(memAddr := Some(addr), memRead := Some(value));
      r := Success(Record(cycle, pc, insn, 2, effect, None));
      pc := Add32(pc, 2);
    }

    method CompressedSw(insn: bv32) returns (r: Result<Record, Cause>)
      requires insn & 3 == 0 && BitRange(insn, 15, 13) == 6
      modifies `pc, `regs, `memory
      ensures insn != 0 && Completes(Execute16(old(State()), insn), r, old(sleeping), old(pc), insn, 2)
    {
      hide Execute16, BitRange, CReg, CImm6, CAddi4spnImm, CLwImm, CLwspImm, CSwspImm, CAddi16spImm, CBranchImm;
      hide CJumpImm, Add32, Reg, SetReg, Wrote, Aligned, LoadValue, StoreValue;
      NonzeroFunction(insn);
      Quadrant0Half(State(), insn);
      CRegRange(insn);
      var addr := Add32(Reg(regs, CReg(BitRange(insn, 9, 7))), CLwImm(insn));
      var value := Reg(regs, CReg(BitRange(insn, 4, 2)));
      var _ :- StoreData(addr, Sw, value);
      r := Success(Record(cycle, pc, insn, 2, NO_EFFECT.(memAddr := Some(addr), memWrite := Some(value)), None));
      pc := Add32(pc, 2);
    }

    method CompressedAddi(insn: bv32) returns (r: Result<Record, Cause>)
      requires insn & 3 == 1 && BitRange(insn, 15, 13) == 0
      modifies `pc, `regs
      ensures Completes(Execute16(old(State()), insn), r, old(sleeping), old(pc), insn, 2)
    {
      hide Execute16, BitRange, CReg, CImm6, CAddi4spnImm, CLwImm, CLwspImm, CSwspImm, CAddi16spImm, CBranchImm;
      hide CJumpImm, Add32, Reg, SetReg, Wrote;
      CAddiHalf(State(), insn);
      var rd := BitRange(insn, 11, 7);
      var imm := CImm6(insn);
      var effect := NO_EFFECT;
      var _ :- RequireRv32eReg(rd);
      if rd != 0 && imm != 0 {
        effect := PutReg(rd, Add32(Reg(regs, rd), imm));
      }
      r := Success(Record(cycle, pc, insn, 2, effect, None));
      pc := Add32(pc, 2);
    }

    method CompressedLi(insn: bv32) returns (r: Result<Record, Cause>)
      requires insn & 3 == 1 && BitRange(insn, 15, 13) == 2
      modifies `pc, `regs
      ensures Completes(Execute16(old(State()), insn), r, old(sleeping), old(pc), insn, 2)
    {
      hide Execute16, BitRange, CReg, CImm6, CAddi4spnImm, CLwImm, CLwspImm, CSwspImm, CAddi16spImm, CBranchImm;
      hide CJumpImm, Add32, Reg, SetReg, Wrote;
      CLiHalf(State(), insn);
      ZeroReg(regs, CImm6(insn));
      var rd := BitRange(insn, 11, 7);
      var effect := NO_EFFECT;
      var _ :- RequireRv32eReg(rd);
      if rd != 0 {
        effect := PutReg(rd, CImm6(insn));
      }
      r := Success(Record(cycle, pc, insn, 2, effect, None));
      pc := Add32(pc, 2);
    }

    method CompressedLui(insn: bv32) returns (r: Result<Record, Cause>)
      requires insn & 3 == 1 && BitRange(insn, 15, 13) == 3
      modifies `pc, `regs
      ensures Completes(Execute16(old(State()), insn), r, old(sleeping), old(pc), insn, 2)
    {
      hide Execute16, BitRange, CReg, CImm6, CAddi4spnImm, CLwImm, CLwspImm, CSwspImm, CAddi16spImm, CBranchImm;
      hide CJumpImm, Add32, Reg, SetReg, Wrote;
      CLuiHalf(State(), insn);
      ZeroReg(regs, CImm6(insn) << 12);
      var rd := BitRange(insn, 11, 7);
      var imm := CImm6(insn);
      var effect := NO_EFFECT;
      var _ :- RequireRv32eReg(rd);
      if rd == 0 {
        if imm == 0 {
          return Failure(IllegalInstruction);
        }
      } else if rd == 2 {
        var imm16 := CAddi16spImm(insn);
        if imm16 == 0 {
          return Failure(IllegalInstruction);
        }
        effect := PutReg(2, Add32(Reg(regs, 2), imm16));
      } else {
        if imm == 0 {
          return Failure(IllegalInstruction);
        }
        effect := PutReg(rd, imm << 12);
      }
      r := Success(Record(cycle, pc, insn, 2, effect, None));
      pc := Add32(pc, 2);
    }

    method CompressedShift(insn: bv32) returns (r: Result<Record, Cause>)
      requires insn & 3 == 1 && BitRange(insn, 15, 13) == 4 && BitRange(insn, 11, 10) < 2
      modifies `pc, `regs
      ensures Completes(Execute16(old(State()), insn), r, old(sleeping), old(pc), insn, 2)
    {
      hide Execute16, BitRange, CReg, CImm6, CAddi4spnImm, CLwImm, CLwspImm, CSwspImm, CAddi16spImm, CBranchImm;
      hide CJumpImm, Add32, Reg, SetReg, Wrote, Alu, ShiftRight, ShiftRightArithmetic;
      CShiftHalf(State(), insn);
      CRegRange(insn);
      ShamtRange(insn);
      var rd := CReg(BitRange(insn, 9, 7));
      var shamt := BitRange(insn, 6, 2);
      var effect := NO_EFFECT;
      if BitRange(insn, 12, 12) != 0 {
        return Failure(UnsupportedExtension);
      }
      if shamt != 0 {
        AluShift(Reg(regs, rd), shamt);
        if BitRange(insn, 11, 10) == 0 {
          effect := PutReg(rd, ShiftRight(Reg(regs, rd), shamt));
        } else {
          effect := PutReg(rd, ShiftRightArithmetic(Reg(regs, rd), shamt));
        }
      }
      r := Success(Record(cycle, pc, insn, 2, effect, None));
      pc := Add32(pc, 2);
    }

    method CompressedAlu(insn: bv32) returns (r: Result<Record, Cause>)
      requires insn & 3 == 1 && BitRange(insn, 15, 13) == 4 && BitRange(insn, 11, 10) >= 2
      modifies `pc, `regs
      ensures Completes(Execute16(old(State()), insn), r, old(sleeping), old(pc), insn, 2)
    {
      hide Execute16, BitRange, CReg, CImm6, CAddi4spnImm, CLwImm, CLwspImm, CSwspImm, CAddi16spImm, CBranchImm;
      hide CJumpImm, Add32, Reg, SetReg, Wrote, And32, Or32, Xor32, Sub32;
      CRegRange(insn);
      SubopRange(insn);
      var rd := CReg(BitRange(insn, 9, 7));
      var lhs := Reg(regs, rd);
      var result: bv32;
      if BitRange(insn, 11, 10) == 2 {
        CAndiHalf(State(), insn);
        result := And32(lhs, CImm6(insn));
      } else {
        CRegistersHalf(State(), insn);
        if BitRange(insn, 12, 12) != 0 {
          return Failure(UnsupportedExtension);
        }
        var rhs := Reg(regs, CReg(BitRange(insn, 4, 2)));
        var caOp := BitRange(insn, 6, 5);
        if caOp == 0 {
          result := Sub32(lhs, rhs);
        } else if caOp == 1 {
          result := Xor32(lhs, rhs);
        } else if caOp == 2 {
          result := Or32(lhs, rhs);
        } else {
          result := And32(lhs, rhs);
        }
      }
      var effect := PutReg(rd, result);
      r := Success(Record(cycle, pc, insn, 2, effect, None));
      pc := Add32(pc, 2);
    }

    method CompressedJump(insn: bv32) returns (r: Result<Record, Cause>)
      requires insn & 3 == 1 && (BitRange(insn, 15, 13) == 1 || BitRange(insn, 15, 13) == 5) && pc & 1 == 0
      modifies `pc, `regs
      ensures Completes(Execute16(old(State()), insn), r, old(sleeping), old(pc), insn, 2)
    {
      hide Execute16, BitRange, CJumpImm, CBranchImm, Add32, SetReg, Wrote;
      CJumpHalf(State(), insn);
      JumpsStayEven(pc, insn);
      ZeroReg(regs, Add32(pc, 2));
      var effect := NO_EFFECT;
      if BitRange(insn, 15, 13) == 1 {
        effect := PutReg(1, Add32(pc, 2));
      }
      r := Success(Record(cycle, pc, insn, 2, effect, None));
      pc := Add32(pc, CJumpImm(insn));
    }

    method CompressedBranch(insn: bv32) returns (r: Result<Record, Cause>)
      requires insn & 3 == 1 && (BitRange(insn, 15, 13) == 6 || BitRange(insn, 15, 13) == 7) && pc & 1 == 0
      modifies `pc
      ensures Completes(Execute16(old(State()), insn), r, old(sleeping), old(pc), insn, 2)
    {
      hide Execute16, BitRange, CReg, CJumpImm, CBranchImm, Add32, Reg;
      CBranchHalf(State(), insn);
      CRegRange(insn);
      JumpsStayEven(pc, insn);
      var value := Reg(regs, CReg(BitRange(insn, 9, 7)));
      r := Success(Record(cycle, pc, insn, 2, NO_EFFECT, None));
      if (BitRange(insn, 15, 13) == 6 && value == 0) || (BitRange(insn, 15, 13) == 7 && value != 0) {
        pc := Add32(pc, CBranchImm(insn));
      } else {
        pc := Add32(pc, 2);
      }
    }

    method CompressedSlli(insn: bv32) returns (r: Result<Record, Cause>)
      requires insn & 3 == 2 && BitRange(insn, 15, 13) == 0
      modifies `pc, `regs
      ensures Completes(Execute16(old(State()), insn), r, old(sleeping), old(pc), insn, 2)
    {
      hide Execute16, BitRange, CReg, CImm6, CAddi4spnImm, CLwImm, CLwspImm, CSwspImm, CAddi16spImm, CBranchImm;
      hide CJumpImm, Add32, Reg, SetReg, Wrote, Alu, ShiftLeft;
      CSlliHalf(State(), insn);
      ShamtRange(insn);
      var rd := BitRange(insn, 11, 7);
      var shamt := BitRange(insn, 6, 2);
      var effect := NO_EFFECT;
      if BitRange(insn, 12, 12) != 0 {
        return Failure(UnsupportedExtension);
      }
      var _ :- RequireRv32eReg(rd);
      if rd != 0 && shamt != 0 {
        AluShift(Reg(regs, rd), shamt);
        effect := PutReg(rd, ShiftLeft(Reg(regs, rd), shamt));
      }
      r := Success(Record(cycle, pc, insn, 2, effect, None));
      pc := Add32(pc, 2);
    }

    method CompressedStack(insn: bv32) returns (r: Result<Record, Cause>)
      requires insn & 3 == 2 && (BitRange(insn, 15, 13) == 2 || BitRange(insn, 15, 13) == 6)
      modifies `pc, `regs, `memory
      ensures Completes(Execute16(old(State()), insn), r, old(sleeping), old(pc), insn, 2)
    {
      hide Execute16, BitRange, CReg, CImm6, CAddi4spnImm, CLwImm, CLwspImm, CSwspImm, CAddi16spImm, CBranchImm;
      hide CJumpImm, Add32, Reg, SetReg, Wrote, Aligned, LoadValue, StoreValue;
      var effect := NO_EFFECT;
      if BitRange(insn, 15, 13) == 2 {
        CLwspHalf(State(), insn);
        var rd := BitRange(insn, 11, 7);
        var _ :- RequireRv32eReg(rd);
        if rd == 0 {
          return Failure(IllegalInstruction);
        }
        var addr := Add32(Reg(regs, 2), CLwspImm(insn));
        var value :- LoadData(addr, Lw);
        effect := PutReg(rd, value);
        effect := effect.(memAddr := Some(addr), memRead := Some(value));
      } else {
        CSwspHalf(State(), insn);
        var rs2 := BitRange(insn, 6, 2);
        var _ :- RequireRv32eReg(rs2);
        var addr := Add32(Reg(regs, 2), CSwspImm(insn));
        var value := Reg(regs, rs2);
        var _ :- StoreData(addr, Sw, value);
        effect := effect.(memAddr := Some(addr), memWrite := Some(value));
      }
      r := Success(Record(cycle, pc, insn, 2, effect, None));
      pc := Add32(pc, 2);
    }

    method CompressedMove(insn: bv32) returns (r: Result<Record, Cause>)
      requires insn & 3 == 2 && BitRange(insn, 15, 13) == 4 && BitRange(insn, 12, 12) == 0
      modifies `pc, `regs
      ensures Completes(Execute16(old(State()), insn), r, old(sleeping), old(pc), insn, 2)
    {
      hide Execute16, BitRange, CReg, CImm6, CAddi4spnImm, CLwImm, CLwspImm, CSwspImm, CAddi16spImm, CBranchImm;
      hide CJumpImm, Add32, Reg, SetReg, Wrote, ClearBit0;
      CMoveHalf(State(), insn);
      var rd := BitRange(insn, 11, 7);
      var rs2 := BitRange(insn, 6, 2);
      var nextPc := Add32(pc, 2);
      var effect := NO_EFFECT;
      ZeroReg(regs, Add32(pc, 2));
      var _ :- RequireRv32eReg(rd);
      var _ :- RequireRv32eReg(rs2);
      ZeroReg(regs, Reg(regs, rs2));
      if rs2 == 0 {
        if rd == 0 {
          return Failure(IllegalInstruction);
        }
        nextPc := ClearBit0(Reg(regs, rd));
      } else if rd != 0 {
        effect := PutReg(rd, Reg(regs, rs2));
      }
      r := Success(Record(cycle, pc, insn, 2, effect, None));
      pc := nextPc;
    }

    method CompressedAdd(insn: bv32) returns (r: Result<Record, Cause>)
      requires insn & 3 == 2 && BitRange(insn, 15, 13) == 4 && BitRange(insn, 12, 12) != 0
      modifies `pc, `regs
      ensures Completes(Execute16(old(State()), insn), r, old(sleeping), old(pc), insn, 2)
    {
      hide Execute16, BitRange, CReg, CImm6, CAddi4spnImm, CLwImm, CLwspImm, CSwspImm, CAddi16spImm, CBranchImm;
      hide CJumpImm, Add32, Reg, SetReg, Wrote, ClearBit0;
      CAddHalf(State(), insn);
      var rd := BitRange(insn, 11, 7);
      var rs2 := BitRange(insn, 6, 2);
      var nextPc := Add32(pc, 2);
      var effect := NO_EFFECT;
      var _ :- RequireRv32eReg(rd);
      var _ :- RequireRv32eReg(rs2);
      ZeroReg(regs, Add32(Reg(regs, rd), Reg(regs, rs2)));
      if rs2 == 0 {
        if rd == 0 {
          return Failure(EbreakTrap);
        }
        nextPc := ClearBit0(Reg(regs, rd));
        effect := PutReg(1, Add32(pc, 2));
      } else if rd != 0 {
        effect := PutReg(rd, Add32(Reg(regs, rd), Reg(regs, rs2)));
      }
      r := Success(Record(cycle, pc, insn, 2, effect, None));
      pc := nextPc;
    }

    method ExecuteHalf(insn: bv32) returns (r: Result<Record, Cause>)
      requires pc & 1 == 0
      modifies `pc, `regs, `memory, `csrs, `sleeping
      ensures Completes(Execute16(old(State()), insn), r, old(sleeping), old(pc), insn, 2)
    {
      hide Execute16, BitRange;
      Funct3Range(insn);
      if insn == 0 || insn & 3 == 3 {
        COtherHalf(State(), insn);
        return Failure(IllegalInstruction);
      }
      var funct3 := BitRange(insn, 15, 13);
      if insn & 3 == 0 {
        r := CompressedQuadrant0(insn);
      } else if insn & 3 == 1 {
        if funct3 == 0 {
          r := CompressedAddi(insn);
        } else if funct3 == 2 {
          r := CompressedLi(insn);
        } else if funct3 == 3 {
          r := CompressedLui(insn);
        } else if funct3 == 4 {
          if BitRange(insn, 11, 10) < 2 {
            r := CompressedShift(insn);
          } else {
            r := CompressedAlu(insn);
          }
        } else if funct3 == 1 || funct3 == 5 {
          r := CompressedJump(insn);
        } else {
          r := CompressedBranch(insn);
        }
      } else if funct3 == 0 {
        r := CompressedSlli(insn);
      } else if funct3 == 2 || funct3 == 6 {
        r := CompressedStack(insn);
      } else if funct3 == 4 {
        if BitRange(insn, 12, 12) == 0 {
          r := CompressedMove(insn);
        } else {
          r := CompressedAdd(insn);
        }
      } else {
        COtherHalf(State(), insn);
        return Failure(UnsupportedExtension);
      }
    }

    // -------------------------------------------------------------- steps and runs

    method FetchInsn() returns (r: Result<(bv32, bv32), Cause>)
      ensures r == Fetch(State())
    {
      if pc & 1 != 0 {
        return Failure(InstructionMisaligned);
      }
      var halfword := HalfWord(memory, Unsigned(pc));
      if halfword & 3 != 3 {
        return Success((halfword, 2));
      }
      return Success((Word(memory, Unsigned(pc)), 4));
    }

    /** One step: a trap is recorded and halts the machine. */
    method StepOne()
      modifies this
      ensures Abstract() == Step(old(Abstract()))
    {
      hide Execute16, Execute32, HalfWord, Word;
      if halted || sleeping {
        return;
      }
      var startPc := pc;
      var insn: bv32, length: bv32 := 0, 4;
      var fetched := FetchInsn();
      var outcome: Result<Record, Cause>;
      match fetched {
        case Failure(cause) => outcome := Failure(cause);
        case Success((word, size)) =>
          FetchedLength(State());
          insn, length := word, size;
          if length == 2 {
            outcome := ExecuteHalf(insn);
          } else {
            outcome := ExecuteWord(insn, length);
          }
      }
      var item: Record;
      match outcome {
        case Success(logged) => item := logged;
        case Failure(cause) =>
          item := Record(cycle, startPc, insn, length, NO_EFFECT, Some(cause));
          halted := true;
      }
      trace := trace + [item];
      regs := regs[0 := 0];
      cycle := cycle + 1;
    }

    method RunUpTo(maxSteps: nat)
      modifies this
      ensures Abstract() == Run(old(Abstract()), maxSteps)
    {
      hide Step;
      for k := 0 to maxSteps
        invariant Run(old(Abstract()), maxSteps) == Run(Abstract(), maxSteps - k)
      {
        if halted || sleeping {
          StoppedRun(Abstract(), maxSteps - k);
          break;
        }
        StepOne();
      }
    }
  }

  lemma AluPlain(lhs: bv32, rhs: bv32)
    ensures Alu(Add, lhs, rhs) == Add32(lhs, rhs) && Alu(Slt, lhs, rhs) == (if SignedLess(lhs, rhs) then 1 else 0)
    ensures Alu(Sltu, lhs, rhs) == (if lhs < rhs then 1 else 0) && Alu(Xor, lhs, rhs) == Xor32(lhs, rhs)
    ensures Alu(Or, lhs, rhs) == Or32(lhs, rhs) && Alu(And, lhs, rhs) == And32(lhs, rhs)
  {
    hide Add32, Xor32, Or32, And32, SignedLess;
  }

  lemma CsrFunct3(funct3: bv32)
    requires funct3 < 8
    ensures CsrOpOf(funct3) ==
      if funct3 == 0 || funct3 == 4 then None
      else if funct3 == 1 || funct3 == 5 then Some(ReadWrite)
      else if funct3 == 2 || funct3 == 6 then Some(ReadSet)
      else Some(ReadClear)
  {
  }

  lemma AluShift(lhs: bv32, shamt: bv32)
    requires shamt < 32
    ensures Alu(Sll, lhs, shamt) == ShiftLeft(lhs, shamt) && Alu(Srl, lhs, shamt) == ShiftRight(lhs, shamt)
    ensures Alu(Sra, lhs, shamt) == ShiftRightArithmetic(lhs, shamt)
  {
    assert shamt & 0x1F == shamt;
  }

  lemma FieldRange3(insn: bv32)
    ensures BitRange(insn, 14, 12) < 8
  {
  }

  lemma FieldRange5(insn: bv32)
    ensures BitRange(insn, 24, 20) < 32
  {
  }

  lemma ZeroReg(regs: RegFile, value: bv32)
    ensures SetReg(regs, 0, value) == regs && Wrote(0, value) == NO_EFFECT
  {
  }

  lemma ShamtRange(insn: bv32)
    ensures BitRange(insn, 6, 2) < 32
  {
  }

  lemma SubopRange(insn: bv32)
    ensures BitRange(insn, 11, 10) < 4
  {
  }

  lemma Funct3Range(insn: bv32)
    ensures BitRange(insn, 15, 13) < 8
  {
  }

  /** Compressed jumps and branches from an even pc stay even, so they cannot trap. */
  lemma JumpsStayEven(pc: bv32, insn: bv32)
    requires pc & 1 == 0
    ensures Add32(pc, CJumpImm(insn)) & 1 == 0 && Add32(pc, CBranchImm(insn)) & 1 == 0
  {
    assert CJumpImm(insn) & 1 == 0;
    assert CBranchImm(insn) & 1 == 0;
  }

  lemma FetchedLength(s: Arch)
    ensures Fetch(s).Success? ==> s.pc & 1 == 0 && (Fetch(s).value.1 == 2 || Fetch(s).value.1 == 4)
  {
  }
}
