/** Abstract syntax and meaning of the RV32E + C + Zicsr instructions. A 16-bit
    instruction has no syntax of its own: it decodes to the instruction it abbreviates. */
module Isa {
  import opened Words

  datatype Cause =
    | IllegalInstruction
    | UnsupportedExtension
    | Rv32eRegister
    | InstructionMisaligned
    | LoadMisaligned
    | StoreMisaligned
    | EcallTrap
    | EbreakTrap

  datatype AluOp = Add | Sub | Sll | Slt | Sltu | Xor | Srl | Sra | Or | And

  datatype BranchOp = Eq | Ne | Lt | Ge | Ltu | Geu

  datatype LoadOp = Lb | Lh | Lw | Lbu | Lhu

  datatype StoreOp = Sb | Sh | Sw

  datatype CsrOp = ReadWrite | ReadSet | ReadClear

  datatype Instr =
    | Lui(rd: bv32, imm: bv32)
    | Auipc(rd: bv32, imm: bv32)
    | Jal(rd: bv32, offset: bv32)
    | Jalr(rd: bv32, rs1: bv32, imm: bv32)
    | Branch(branch: BranchOp, rs1: bv32, rs2: bv32, offset: bv32)
    | Load(load: LoadOp, rd: bv32, rs1: bv32, imm: bv32)
    | Store(store: StoreOp, rs2: bv32, rs1: bv32, imm: bv32)
    | OpImm(alu: AluOp, rd: bv32, rs1: bv32, imm: bv32)
    | Op(alu: AluOp, rd: bv32, rs1: bv32, rs2: bv32)
    | Fence
    | Ecall
    | Ebreak
    | Wfi
    | Mret
    | Csr(csrOp: CsrOp, immediate: bool, rd: bv32, source: bv32, csr: bv32)

  // ---------------------------------------------------------------- state

  type RegFile = regs: seq<bv32> | |regs| == 16 witness seq(16, _ => 0)

  /** Sparse byte memory over int addresses: an absent cell reads as zero. A 4-byte fetch at
      0xFFFF_FFFE looks at two addresses above the 32-bit range. */
  type Memory = map<int, bv8>

  datatype CsrName = CsrName(number: bv32)

  type CsrFile = map<CsrName, bv32>

  datatype Arch = Arch(pc: bv32, regs: RegFile, memory: Memory, csrs: CsrFile)

  const MSTATUS: bv32 := 0x300
  const MISA: bv32 := 0x301
  const MIE: bv32 := 0x304
  const MTVEC: bv32 := 0x305
  const MSCRATCH: bv32 := 0x340
  const MEPC: bv32 := 0x341
  const MCAUSE: bv32 := 0x342
  const MTVAL: bv32 := 0x343
  const MIP: bv32 := 0x344
  const MVENDORID: bv32 := 0xF11
  const MARCHID: bv32 := 0xF12
  const MIMPID: bv32 := 0xF13
  const MHARTID: bv32 := 0xF14
  const MSTATUS_MIE: bv32 := 0x8
  const MSTATUS_MPIE: bv32 := 0x80
  const MSTATUS_MPP: bv32 := 0x1800
  const MSTATUS_BITS: bv32 := MSTATUS_MIE | MSTATUS_MPIE | MSTATUS_MPP
  const MIE_BITS: bv32 := (1 << 3) | (1 << 7) | (1 << 11)
  const MTVEC_BITS: bv32 := !3
  const MEPC_BITS: bv32 := !1
  const MISA_RV32EC: bv32 := 0x4000_0014

  predicate WritableCsr(csr: bv32) {
    csr == MSTATUS || csr == MIE || csr == MTVEC || csr == MSCRATCH || csr == MEPC || csr == MCAUSE || csr == MTVAL
  }

  predicate ReadOnlyCsr(csr: bv32) {
    csr == MISA || csr == MIP || csr == MVENDORID || csr == MARCHID || csr == MIMPID || csr == MHARTID
  }

  /** What a writable CSR keeps of a value written to it. */
  function CsrKeeps(csr: bv32, value: bv32): bv32
    requires WritableCsr(csr)
  {
    if csr == MSTATUS then value & MSTATUS_BITS
    else if csr == MIE then value & MIE_BITS
    else if csr == MTVEC then value & MTVEC_BITS
    else if csr == MEPC then value & MEPC_BITS
    else value
  }

  function CsrValue(csrs: CsrFile, csr: bv32): bv32 {
    if csr == MISA then MISA_RV32EC
    else if WritableCsr(csr) && CsrName(csr) in csrs then csrs[CsrName(csr)]
    else 0
  }

  function SetCsr(csrs: CsrFile, csr: bv32, value: bv32): CsrFile
    requires WritableCsr(csr)
  {
    csrs[CsrName(csr) := CsrKeeps(csr, value)]
  }

  /** x0 reads as zero whatever the file holds. */
  function Reg(regs: RegFile, index: bv32): bv32
    requires index < 16
  {
    if index == 0 then 0 else regs[index as int]
  }

  /** Writes to x0 are dropped. */
  function SetReg(regs: RegFile, index: bv32, value: bv32): RegFile
    requires index < 16
  {
    if index == 0 then regs else regs[index as int := value]
  }

  function Byte(memory: Memory, address: int): bv32 {
    if address in memory then memory[address] as bv32 else 0
  }

  function HalfWord(memory: Memory, address: int): bv32 {
    Byte(memory, address) | (Byte(memory, address + 1) << 8)
  }

  function Word(memory: Memory, address: int): bv32 {
    Byte(memory, address) | (Byte(memory, address + 1) << 8)
    | (Byte(memory, address + 2) << 16) | (Byte(memory, address + 3) << 24)
  }

  function LowByte(value: bv32): bv8 {
    (value & 0xFF) as bv8
  }

  /** Byte number `index` of a word, counting from the least significant. */
  function ByteOf(value: bv32, index: nat): bv8 {
    if index == 0 then LowByte(value) else ByteOf(value >> 8, index - 1)
  }

  /** The low `size` bytes of value, stored little-endian. */
  function StoreBytes(memory: Memory, address: int, value: bv32, size: nat): Memory {
    if size == 0 then memory
    else StoreBytes(memory, address, value, size - 1)[address + size - 1 := ByteOf(value, size - 1)]
  }

  // ---------------------------------------------------------------- meaning

  function Alu(op: AluOp, a: bv32, b: bv32): bv32 {
    match op
    case Add => Add32(a, b)
    case Sub => Sub32(a, b)
    case Sll => ShiftLeft(a, b & 0x1F)
    case Slt => if SignedLess(a, b) then 1 else 0
    case Sltu => if a < b then 1 else 0
    case Xor => Xor32(a, b)
    case Srl => ShiftRight(a, b & 0x1F)
    case Sra => ShiftRightArithmetic(a, b & 0x1F)
    case Or => Or32(a, b)
    case And => And32(a, b)
  }

  predicate Taken(op: BranchOp, a: bv32, b: bv32) {
    match op
    case Eq => a == b
    case Ne => a != b
    case Lt => SignedLess(a, b)
    case Ge => !SignedLess(a, b)
    case Ltu => a < b
    case Geu => a >= b
  }

  function LoadSize(op: LoadOp): nat {
    match op
    case Lb | Lbu => 1
    case Lh | Lhu => 2
    case Lw => 4
  }

  function StoreSize(op: StoreOp): nat {
    match op
    case Sb => 1
    case Sh => 2
    case Sw => 4
  }

  function LoadValue(op: LoadOp, memory: Memory, address: bv32): bv32 {
    var a := Unsigned(address);
    match op
    case Lb => Sext(Byte(memory, a), 8)
    case Lh => Sext(HalfWord(memory, a), 16)
    case Lw => Word(memory, a)
    case Lbu => Byte(memory, a)
    case Lhu => HalfWord(memory, a)
  }

  function StoreValue(op: StoreOp, memory: Memory, address: bv32, value: bv32): Memory {
    StoreBytes(memory, Unsigned(address), value, StoreSize(op))
  }

  /** The part of a stored register that reaches memory. */
  function StoredPart(op: StoreOp, value: bv32): bv32 {
    match op
    case Sb => value & 0xFF
    case Sh => value & 0xFFFF
    case Sw => value
  }

  predicate Aligned(address: bv32, size: nat) {
    (size == 2 ==> address & 1 == 0) && (size == 4 ==> address & 3 == 0)
  }

  /** What a completed instruction leaves in its trace record. */
  datatype Effect = Effect(
    rd: Option<bv32>, rdData: bv32,
    memAddr: Option<bv32>, memRead: Option<bv32>, memWrite: Option<bv32>)

  const NO_EFFECT := Effect(None, 0, None, None, None)

  function Wrote(rd: bv32, value: bv32): Effect {
    if rd == 0 then NO_EFFECT else NO_EFFECT.(rd := Some(rd), rdData := value)
  }

  /** Done: the instruction completed. Asleep: it was WFI. Trapped: the state holds
      whatever was changed before the trap was raised. */
  datatype Outcome =
    | Done(arch: Arch, effect: Effect)
    | Asleep(arch: Arch)
    | Trapped(arch: Arch, cause: Cause)

  predicate IsReg(index: bv32) {
    index < 16
  }

  /** The registers an instruction names are x0..x15, where the decoder checks that. */
  predicate Operands(i: Instr) {
    match i
    case Lui(rd, _) => IsReg(rd)
    case Auipc(rd, _) => IsReg(rd)
    case Jal(rd, _) => IsReg(rd)
    case Jalr(rd, rs1, _) => IsReg(rd) && IsReg(rs1)
    case Branch(_, rs1, rs2, _) => IsReg(rs1) && IsReg(rs2)
    case Load(_, rd, rs1, _) => IsReg(rd) && IsReg(rs1)
    case Store(_, rs2, rs1, _) => IsReg(rs2) && IsReg(rs1)
    case OpImm(_, rd, rs1, _) => IsReg(rd) && IsReg(rs1)
    case Op(_, rd, rs1, rs2) => IsReg(rd) && IsReg(rs1) && IsReg(rs2)
    case _ => true
  }

  /** Write rd and go on at next. */
  function Retire(s: Arch, next: bv32, rd: bv32, value: bv32): Outcome
    requires rd < 16
  {
    Done(s.(pc := next, regs := SetReg(s.regs, rd, value)), Wrote(rd, value))
  }

  /** Execute i, which occupies `length` bytes at s.pc. */
  function Exec(i: Instr, s: Arch, length: bv32): Outcome
    requires Operands(i)
  {
    match i
    case Lui(rd, imm) => Retire(s, Add32(s.pc, length), rd, imm)
    case Auipc(rd, imm) => Retire(s, Add32(s.pc, length), rd, Add32(s.pc, imm))
    case Jal(rd, offset) => ExecJal(rd, Add32(s.pc, offset), s, Add32(s.pc, length))
    case Jalr(rd, rs1, imm) => ExecJalr(rd, Add32(Reg(s.regs, rs1), imm), s, Add32(s.pc, length))
    case Branch(op, rs1, rs2, offset) =>
      ExecBranch(Taken(op, Reg(s.regs, rs1), Reg(s.regs, rs2)), Add32(s.pc, offset), s, Add32(s.pc, length))
    case Load(op, rd, rs1, imm) => ExecLoad(op, rd, Add32(Reg(s.regs, rs1), imm), s, Add32(s.pc, length))
    case Store(op, rs2, rs1, imm) => ExecStore(op, Reg(s.regs, rs2), Add32(Reg(s.regs, rs1), imm), s,
        Add32(s.pc, length))
    case OpImm(op, rd, rs1, imm) => Retire(s, Add32(s.pc, length), rd, Alu(op, Reg(s.regs, rs1), imm))
    case Op(op, rd, rs1, rs2) => Retire(s, Add32(s.pc, length), rd, Alu(op, Reg(s.regs, rs1), Reg(s.regs, rs2)))
    case Fence => Done(s.(pc := Add32(s.pc, length)), NO_EFFECT)
    case Ecall => Trapped(s, EcallTrap)
    case Ebreak => Trapped(s, EbreakTrap)
    case Wfi => Asleep(s.(pc := Add32(s.pc, length)))
    case Mret => ExecMret(s)
    case Csr(op, immediate, rd, source, csr) => ExecCsr(op, immediate, rd, source, csr, s, Add32(s.pc, length))
  }

  function ExecJal(rd: bv32, target: bv32, s: Arch, next: bv32): Outcome
    requires rd < 16
  {
    if target & 1 != 0 then Trapped(s, InstructionMisaligned) else Retire(s, target, rd, next)
  }

  /** The jump target has its low bit cleared and is computed before rd is written. */
  function ExecJalr(rd: bv32, target: bv32, s: Arch, next: bv32): Outcome
    requires rd < 16
  {
    Retire(s, ClearBit0(target), rd, next)
  }

  function ExecBranch(taken: bool, target: bv32, s: Arch, next: bv32): Outcome {
    if !taken then Done(s.(pc := next), NO_EFFECT)
    else if target & 1 != 0 then Trapped(s, InstructionMisaligned)
    else Done(s.(pc := target), NO_EFFECT)
  }

  function ExecMret(s: Arch): Outcome {
    Done(s.(pc := CsrValue(s.csrs, MEPC), csrs := MretCsrs(s.csrs)), NO_EFFECT)
  }

  function ExecLoad(op: LoadOp, rd: bv32, address: bv32, s: Arch, next: bv32): Outcome
    requires rd < 16
  {
    if !Aligned(address, LoadSize(op)) then Trapped(s, LoadMisaligned)
    else
      var value := LoadValue(op, s.memory, address);
      Done(s.(pc := next, regs := SetReg(s.regs, rd, value)),
           Wrote(rd, value).(memAddr := Some(address), memRead := Some(value)))
  }

  function ExecStore(op: StoreOp, value: bv32, address: bv32, s: Arch, next: bv32): Outcome {
    if !Aligned(address, StoreSize(op)) then Trapped(s, StoreMisaligned)
    else
      Done(s.(pc := next, memory := StoreValue(op, s.memory, address, value)),
           NO_EFFECT.(memAddr := Some(address), memWrite := Some(StoredPart(op, value))))
  }

  /** MRET: MIE takes MPIE, MPIE becomes one, and MPP is set to both ones. */
  function MretCsrs(csrs: CsrFile): CsrFile {
    var mie := if CsrValue(csrs, MSTATUS) & MSTATUS_MPIE != 0 then MSTATUS_MIE else 0;
    SetCsr(csrs, MSTATUS, mie | MSTATUS_MPIE | MSTATUS_MPP)
  }

  function CsrResult(op: CsrOp, before: bv32, operand: bv32): bv32 {
    match op
    case ReadWrite => operand
    case ReadSet => Or32(before, operand)
    case ReadClear => And32(before, !operand)
  }

  /** A Zicsr instruction: the CSR must exist and a source register must be x0..x15. */
  function ExecCsr(op: CsrOp, immediate: bool, rd: bv32, source: bv32, csr: bv32, s: Arch, next: bv32): Outcome {
    if !WritableCsr(csr) && !ReadOnlyCsr(csr) then Trapped(s, IllegalInstruction)
    else if !immediate && source >= 16 then Trapped(s, Rv32eRegister)
    else CommitCsr(op, if immediate then source else Reg(s.regs, source), rd, csr, s, next)
  }

  /** Whether the CSR is written depends on the operand's value. */
  predicate Writes(op: CsrOp, operand: bv32) {
    op == ReadWrite || operand != 0
  }

  /** A write takes effect before a destination above x15 is rejected. */
  function CommitCsr(op: CsrOp, operand: bv32, rd: bv32, csr: bv32, s: Arch, next: bv32): Outcome
    requires WritableCsr(csr) || ReadOnlyCsr(csr)
  {
    var before := CsrValue(s.csrs, csr);
    var writes := Writes(op, operand);
    if writes && !WritableCsr(csr) then Trapped(s, IllegalInstruction)
    else
      var s' := if writes then s.(csrs := SetCsr(s.csrs, csr, CsrResult(op, before, operand))) else s;
      if rd >= 16 then Trapped(s', Rv32eRegister) else Retire(s', next, rd, before)
  }
}
