# Verified models of the ditdah32 instruction set model, benchmark kernels and bus test bench

This project models three parts of the repository in Dafny and proves what they are for.

* **The instruction set model.** These modules model the RV32E + C + Zicsr interpreter, the assembler
  for it and the generator of random test programs. `Isa` gives instructions a syntax and a meaning;
  `Decoder`, `Encoder` and `Compressed` connect that syntax to words and half words; `Machine` is the
  step function; `Model` is the interpreter as the source has it, a class whose methods update pc,
  registers, memory, CSRs, flags and trace in place, proved to do what `Machine` says. `Opcodes` says
  which words are which instruction, and `Meaning` what each instruction computes, in numbers; `Words`,
  `Numbers`, `Powers` and `Arithmetic` are the machine words and the numbers that their operations
  compute. `Runs` and `Trace` hold the invariants and the log of whole runs, `Image` the assembled
  program, `Generator` the random programs.
* **The benchmark kernels.** `CoreList`, `MergeOrder`, `ListSort`, `ListBench` and `ListInit` are the
  linked list kernel, on a heap of cells: the in-place merge sort, the list surgery, the benchmark body
  that puts the list back, and the construction of the list. `Crc` is the bit-serial CRC-16,
  `SoftArith` multiplication and division in software, `CoreState`, `StateBench` and `StateInput` the
  number scanner, its benchmark and its input.
* **The test bench.** `AxiMonitor` is the AXI-Lite protocol monitor, `AddressSpaces` the router that
  maps memories and windows onto one flat byte map.

`dafny verify dfyconfig.toml` checks everything.

## Conventions

* 32-bit words are `bv32`; arithmetic wraps as the masking in the source does. Memory is a map from
  addresses to bytes, absent cells reading as zero. In the benchmark kernels 16-bit data are `bv16`,
  `idx` is a 16-bit integer type whose wrap-around is written out, and the software arithmetic is on
  integers with the wrap-around written out.
* Python exceptions and error returns are `Result` or `Option` values.
* Random choices of the generator are parameters: a program is given by the initial register values
  and one draw for each step.
* Where a loop body or a branch of a long function has become a method of its own, the contract of
  that method names the whole new state. A list is given to a method together with the sequence of its
  nodes, which is ghost.
* Arrays of different element types cannot be the same object, but the verifier does not know that; a
  few preconditions say so.

## Where the code differs from what is said about it

* Whether CSRRS and CSRRC write depends on the value of the operand, not on whether rs1 is x0
  (`scripts/rv32ec_model.py:691`); a CSR instruction that writes its CSR and has rd above x15 traps
  after the CSR has been written (`scripts/rv32ec_model.py:702`), the one kind of trap that changes state; mstatus.MPP is masked, not forced (`scripts/rv32ec_model.py:199`).
* The list benchmark says that the list is back in its original state at the end
  (`bench/coremark/upstream/core_list_join.c:156`). The lower bytes are rebuilt from the upper ones
  whatever they were before. The order comes back exactly when the list came in sorted by idx and the
  searches and the sort by value kept nodes of equal idx in order. Strictly increasing idx are enough for
  every run, and for one search for idx 0 they are needed; in the list that `core_list_init` builds in
  666 bytes with seed 2 two nodes have the idx 5, so that it does not come back from such a search.
* `core_list_find` (`bench/coremark/upstream/core_list_join.c:425`) is said to look for an idx "if not 0"; the code does so for every idx that is not
  negative. The loop that is to sum up the list from a location on feeds the first item each time.
* The header of the list that `core_list_init` builds is always first only as long as the indices it
  gives in order fit 16 bits: for more than 163844 cells it is not.
* The third of the four scientific patterns of the state benchmark has no point in front of its
  exponent, and the scanner rejects it.
* Undoing the corruption of the state benchmark does not restore a byte that the corruption turned
  into a comma, as 0x1C does with the digit 0.
* The AXI-Lite monitor reports a second outstanding read. It counts an address in front of the
  data of the same edge, so that an address taken together with the data of the read before it is
  reported although never more than one read is open after an edge; likewise for writes.
* A write that the address space refuses has already been done up to the first gap. A region may be
  mapped past the end of its memory, and then its addresses are covered but cannot be read.

## Model

| member | source | states |
|---|---|---|
| Encoder.DecodeEncode | scripts/rv32ec_encode.py:6-100 | every well-ranged instruction is recovered from the word the assembler builds for it: fields, scrambled immediates and their signs |
| Encoder.EncodeDecode | scripts/rv32ec_model.py:493-720 | the converse: a word that the interpreter accepts, other than FENCE, is the encoding of the instruction it is taken for, so that no two such words mean the same |
| Compressed.ExpansionDecodesTheSame | scripts/rv32ec_model.py:315-491 | a legal 16-bit instruction is taken for the same instruction as the 32-bit word that the C extension expands it to |
| Compressed.DecodeAddi | scripts/rv32ec_encode.py:119-120 | C.ADDI is recovered with the sign of its immediate |
| Compressed.DecodeLi | scripts/rv32ec_encode.py:123-124 | C.LI is recovered with the sign of its immediate |
| Compressed.DecodeLui | scripts/rv32ec_encode.py:127-128 | C.LUI is recovered, its immediate moved to the upper 20 bits |
| Compressed.DecodeSlli | scripts/rv32ec_encode.py:225-226 | C.SLLI is recovered |
| Compressed.DecodeAddi16sp | scripts/rv32ec_encode.py:131-141 | C.ADDI16SP is recovered: the scrambled multiple of 16, with its sign |
| Compressed.DecodeAddi4spn | scripts/rv32ec_encode.py:144-151 | C.ADDI4SPN is recovered: the scrambled multiple of 4 |
| Compressed.DecodeLw | scripts/rv32ec_encode.py:154-162 | C.LW is recovered: both compact registers and the offset |
| Compressed.DecodeSw | scripts/rv32ec_encode.py:165-173 | C.SW is recovered: both compact registers and the offset |
| Compressed.DecodeStackAccess | scripts/rv32ec_encode.py:176-194 | C.LWSP and C.SWSP are recovered with their two layouts of the offset |
| Compressed.DecodeJump | scripts/rv32ec_encode.py:197-209 | C.J and C.JAL are recovered: the eleven scrambled offset bits and the sign |
| Compressed.DecodeCBranch | scripts/rv32ec_encode.py:212-222 | C.BEQZ and C.BNEZ are recovered with the sign of the offset |
| Compressed.DecodeCa | scripts/rv32ec_encode.py:229-230 | C.SUB, C.XOR, C.OR and C.AND are recovered |
| Compressed.DecodeCr | scripts/rv32ec_encode.py:233-238 | C.MV, C.ADD, C.JR, C.JALR and C.EBREAK are recovered |
| Opcodes.RegisterWords | scripts/rv32ec_model.py:634-663 | a word with the codes of a register operation in chapter 24 of the RISC-V Unprivileged ISA is that operation on the registers in its fields, or refused for a register above x15 |
| Opcodes.ShiftWords | scripts/rv32ec_model.py:601-632 | so for the shifts by an amount |
| Opcodes.ImmediateWords | scripts/rv32ec_model.py:601-632 | and for the operations with an immediate |
| Opcodes.BranchWords | scripts/rv32ec_model.py:538-562 | branches |
| Opcodes.LoadWords | scripts/rv32ec_model.py:564-581 | loads |
| Opcodes.StoreWords | scripts/rv32ec_model.py:583-599 | stores |
| Opcodes.UpperWords | scripts/rv32ec_model.py:508-514 | LUI and AUIPC |
| Opcodes.JumpWords | scripts/rv32ec_model.py:516-536 | JAL and JALR |
| Opcodes.CsrWords | scripts/rv32ec_model.py:684-702 | CSR accesses |
| Opcodes.SystemWords | scripts/rv32ec_model.py:669-683 | ECALL, EBREAK, WFI and MRET |
| Opcodes.ImmediateI | scripts/rv32ec_model.py:568-568 | the bits of the I immediate: the sign of the word fills it from bit 11 up |
| Opcodes.ImmediateS | scripts/rv32ec_model.py:586-587 | the bits of the S immediate |
| Opcodes.ImmediateB | scripts/rv32ec_model.py:541-546 | the bits of the B immediate |
| Opcodes.ImmediateJ | scripts/rv32ec_model.py:518-524 | the bits of the J immediate |
| Opcodes.UnusedOpcodes | scripts/rv32ec_model.py:493-720 | words with any other opcode are refused |
| Opcodes.UnusedFunctions | scripts/rv32ec_model.py:538-599 | function codes that no instruction has are refused, after the registers have been checked |
| Opcodes.UnusedCodes | scripts/rv32ec_model.py:601-663 | so are the unused codes of register operations and shifts |
| Model.Rv32ecModel.LoadImage | scripts/rv32ec_model.py:149-157 | the loader leaves the little-endian bytes of the words in memory, nothing else changes |
| Model.Rv32ecModel.LoadData | scripts/rv32ec_model.py:212-226 | a load traps exactly when it is misaligned, and otherwise gives the extended value of the bytes, absent cells reading as zero |
| Model.Rv32ecModel.StoreData | scripts/rv32ec_model.py:228-235 | a store traps exactly when it is misaligned, leaving memory alone, and otherwise writes just its bytes |
| Model.Rv32ecModel.ReadReg | scripts/rv32ec_model.py:173-177 | reading a register above x15 is refused |
| Model.Rv32ecModel.WriteReg | scripts/rv32ec_model.py:179-184 | writing x0 is dropped and not logged, writing above x15 is refused |
| Model.Rv32ecModel.ReadCsr | scripts/rv32ec_model.py:186-193 | the fixed identity CSRs, the stored ones, and the trap for the rest |
| Model.Rv32ecModel.WriteCsr | scripts/rv32ec_model.py:195-210 | the write masks; MPP is masked, not forced |
| Model.Rv32ecModel.FetchInsn | scripts/rv32ec_model.py:237-245 | two bytes when the low bits are not both set, else four; an odd pc is refused |
| Model.Rv32ecModel.ExecuteWord | scripts/rv32ec_model.py:493-720 | the method that decodes and executes a 32-bit instruction on the mutable fields does what decoding into syntax and executing that syntax does |
| Model.Rv32ecModel.ExecuteHalf | scripts/rv32ec_model.py:315-491 | the same for 16-bit instructions |
| Model.Rv32ecModel.ExecuteCsr | scripts/rv32ec_model.py:684-720 | whether a CSR is written depends on the value of the operand; the CSR is written before an rd above x15 is refused |
| Model.Rv32ecModel.ExecuteMret | scripts/rv32ec_model.py:678-683 | MRET restores MIE from MPIE and goes to the stored MEPC |
| Model.Rv32ecModel.StepOne | scripts/rv32ec_model.py:276-302 | one call of the step method is one step of the machine: fetch, execute, log, stop |
| Model.Rv32ecModel.RunUpTo | scripts/rv32ec_model.py:304-309 | the run loop makes as many steps as allowed, or fewer when the machine stops |
| Meaning.FetchComputes | scripts/rv32ec_model.py:237-245 | in numbers: nothing is fetched from an odd address, four cells when the first holds 3 modulo 4, two cells otherwise, the least significant first |
| Meaning.AluIs | scripts/rv32ec_model.py:601-663 | in numbers, for every operation: sums, differences and left shifts modulo 2^32, SLT comparing signed and SLTU unsigned numbers, SRL and SRA dividing by a power of two with the unsigned and the signed number, and the bitwise ones digit by digit |
| Meaning.OpComputes | scripts/rv32ec_model.py:634-663 | a register operation puts that number into its register, goes on behind itself, and changes and logs nothing else |
| Meaning.OpImmComputes | scripts/rv32ec_model.py:601-632 | so does an operation with an immediate |
| Meaning.UpperComputes | scripts/rv32ec_model.py:508-514 | LUI and AUIPC |
| Meaning.JumpComputes | scripts/rv32ec_model.py:516-527 | JAL goes to pc plus offset modulo 2^32 and leaves the address behind itself, or traps for an odd target |
| Meaning.JumpRegisterComputes | scripts/rv32ec_model.py:529-536 | JALR goes to register plus immediate modulo 2^32, rounded down to an even number |
| Meaning.BranchComputes | scripts/rv32ec_model.py:538-562 | which branches are taken: by equality, by signed numbers and by unsigned numbers, and where to |
| Meaning.LoadComputes | scripts/rv32ec_model.py:564-581 | which loads trap, the number read little-endian, signed for LB and LH, and where it goes |
| Meaning.StoreComputes | scripts/rv32ec_model.py:583-599 | which stores trap, and that just the cells written hold the low bytes of the register, least significant first |
| Meaning.CsrComputes | scripts/rv32ec_model.py:684-720 | which accesses are refused and how, what rd gets, and what the CSR holds afterwards: the operand, the old number with its digits set, or with its digits cleared, under the mask of that CSR |
| Meaning.MretComputes | scripts/rv32ec_model.py:678-683 | mstatus becomes 0x1888 or 0x1880 by its old bit 7, and pc what mepc holds |
| Meaning.OthersCompute | scripts/rv32ec_model.py:665-677 | FENCE, ECALL, EBREAK and WFI |
| Meaning.ShortComputes | scripts/rv32ec_model.py:315-491 | a half word does what the instruction it is taken for does over two bytes, but for the log of an operation with a neutral immediate |
| Machine.StoppedRun | scripts/rv32ec_model.py:304-309 | a halted or sleeping machine changes no more |
| Runs.CompressedMeansExpansion | scripts/rv32ec_model.py:315-491 | executing a legal 16-bit instruction and executing its expansion over two bytes give the same state, the same trap, and the same log but for writes of a register with its own value |
| Runs.ExecSound | scripts/rv32ec_model.py:493-720 | every instruction keeps pc even, x0 zero and each stored CSR inside its mask, and never raises a misaligned fetch |
| Runs.ExecuteSound | scripts/rv32ec_model.py:276-302 | the same for every word or half word, legal or not |
| Runs.MretSound | scripts/rv32ec_model.py:678-683 | MRET keeps the invariant |
| Runs.CsrSound | scripts/rv32ec_model.py:684-720 | so does every CSR access, trapped ones included |
| Runs.ExecuteAccounted | scripts/rv32ec_model.py:247-302 | the logged effect is the whole change of registers and memory; after a trap the state is exactly what it was, unless the word is a CSR access that does write a CSR of its own accord and has its destination above x15, and then that one CSR has its new value and nothing else has changed |
| Runs.LateTrapWrites | scripts/rv32ec_model.py:684-702 | a CSR access that writes, with its destination above x15, traps for the register after the CSR has been written |
| Runs.LateTrapWitness | scripts/rv32ec_model.py:684-702 | csrrwi x16, mscratch, 5 traps and leaves 5 in mscratch |
| Runs.TrapsTouchNoRegister | scripts/rv32ec_model.py:247-302 | a word that traps leaves registers, memory and pc as they were, and the CSRs too unless it is a 32-bit CSR access with its destination above x15 |
| Runs.AsleepOnlyOnWfi | scripts/rv32ec_model.py:674-677 | only WFI puts the machine to sleep |
| Trace.StepIsLogged | scripts/rv32ec_model.py:247-302 | each step appends one record with the cycle and pc it had, from which registers and memory after the step follow; after a trap the whole state, CSRs included, is the one in front of it but for the one CSR of a late trap |
| Trace.RunIsLogged | scripts/rv32ec_model.py:304-309 | over a whole run: records are numbered in order, each pc is the one the run had by then, replaying the log gives the final registers and memory, a trap or WFI can only be last and is why the run stopped |
| Trace.RunComposes | scripts/rv32ec_model.py:304-309 | a run of a steps and then of b steps is a run of a + b steps |
| Trace.RunKeepsSound | scripts/rv32ec_model.py:276-309 | from a sound state every reachable state is sound, so pc stays even and no misaligned fetch is ever logged |
| Image.ProgramImage.Add16 | scripts/rv32ec_encode.py:249-250 | two little-endian bytes are appended |
| Image.ProgramImage.Add32 | scripts/rv32ec_encode.py:252-253 | four little-endian bytes are appended |
| Image.ProgramImage.Words | scripts/rv32ec_encode.py:255-259 | the bytes padded with zeros to whole words, without changing the image |
| Image.FetchParcel | scripts/rv32ec_model.py:237-245 | a parcel lying at an even address is fetched as itself, with its length |
| Image.EncodedStep | scripts/rv32ec_model.py:247-302 | a step of a machine at an even pc whose memory holds the encoding of an instruction performs just that instruction and logs its word with length 4 |
| Image.CompressedStep | scripts/rv32ec_model.py:247-302 | so does a step at a half word with length 2; what it leaves as it is it does not log |
| Image.AssembleLoadFetch | scripts/rv32ec_encode.py:241-259 | any sequence of 16- and 32-bit values with proper low bits, assembled, loaded at an even base such that the last one starts below 2^32, and fetched, comes back as that sequence with its lengths |
| Image.SecondIsFetchedFromZero | scripts/rv32ec_encode.py:241-259 | that bound is needed: of two half words loaded at 0xFFFFFFFE the second is fetched from address 0 |
| Generator.ImmediateRanges | scripts/rv32ec_isa_regress.py:243-264 | which immediates and amounts can be drawn |
| Generator.MemoryRanges | scripts/rv32ec_isa_regress.py:285-308 | which registers and aligned offsets can be drawn for accesses |
| Generator.ShortRanges | scripts/rv32ec_isa_regress.py:291-296 | which immediates can be drawn for half words |
| Generator.DrawDecodes | scripts/rv32ec_isa_regress.py:254-308 | whatever the generator emits for a random choice is one legal instruction of the right length that touches only data registers and the window |
| Generator.DrawMeans | scripts/rv32ec_isa_regress.py:247-308 | the instruction that each random choice is decoded as, registers and base included |
| Generator.EmittedRegisters | scripts/rv32ec_isa_regress.py:265-284 | a register operation is packed from the codes of the listing with its second source in front of the first |
| Generator.EmittedImmediate | scripts/rv32ec_isa_regress.py:247-264 | so is an operation with an immediate or a shift amount |
| Generator.EmittedLoad | scripts/rv32ec_isa_regress.py:285-287 | a load is from the window at x8 |
| Generator.EmittedStore | scripts/rv32ec_isa_regress.py:288-290 | and a store to it |
| Generator.InitDecodes | scripts/rv32ec_isa_regress.py:205-206 | each data register gets its first value from x0 |
| Generator.StepsAre | scripts/rv32ec_isa_regress.py:202-204 | the step bound in numbers: 13 initial values, the steps, two or four instructions for the bases, and two to spare |
| Generator.ConstantRun | scripts/rv32ec_isa_regress.py:57-69 | the constant loader leaves any 32-bit value in the register, in one step or two |
| Generator.LoadU32Constant | scripts/rv32ec_isa_regress.py:57-69 | the appended instructions and their number |
| Generator.TameStep | scripts/rv32ec_isa_regress.py:196-308 | one step of an emitted instruction does not trap, keeps x2 and x8 and stores in the window only |
| Generator.TameItemStays | scripts/rv32ec_isa_regress.py:285-308 | in numbers: the accesses of a logged step start in the 64 bytes from the base on, and stores end in them |
| Generator.TameRun | scripts/rv32ec_isa_regress.py:196-308 | so does a run of any number of them |
| Generator.RandomProgram | scripts/rv32ec_isa_regress.py:196-311 | the image for given random choices, and its step bound |
| Generator.RunProgram | scripts/rv32ec_isa_regress.py:341-345 | running a program is a run of the machine from the loaded image |
| Generator.GeneratedProgramRuns | scripts/rv32ec_isa_regress.py:196-345 | every program the generator can emit runs in exactly setup + 13 + steps + 1 records within its bound; only the final C.EBREAK traps; all accesses stay in the window; x2 and x8 hold the base throughout |
| Generator.RunRandomProgram | scripts/rv32ec_isa_regress.py:196-345 | generating a program and running it on a fresh model ends halted with a trace of setup + 13 + steps + 1 records: harmless ones and the final C.EBREAK, with x2 and x8 holding the base |
| Generator.DefaultBaseFits | scripts/rv32ec_isa_regress.py:196-199 | at the default data base every program of up to 240 steps lies in front of its window |
| CoreList.FieldsAre | bench/coremark/upstream/core_list_join.c:69-113 | the parts of the data as numbers: flag modulo 8, value modulo 128, upper byte, and the byte rebuilt from it |
| CoreList.CallMeans | bench/coremark/upstream/core_list_join.c:69-113 | which kernel an item asks for, and with which argument |
| CoreList.CalcFunc | bench/coremark/upstream/core_list_join.c:69-113 | the value is computed once, by the kernel and with the data type and CRC that the item asks for, cached with the upper byte kept, and fed into the CRC; a cached item changes nothing, and a value that needs no kernel is that of the data |
| CoreList.CmpComplex | bench/coremark/upstream/core_list_join.c:120-126 | the difference of the two cached values |
| CoreList.CmpIdx | bench/coremark/upstream/core_list_join.c:133-142 | the difference of the indices; without a results block both lower bytes are rebuilt |
| CoreList.Compare | bench/coremark/upstream/core_list_join.c:69-142 | what every comparator promises a sort: both items are settled afterwards, settled items do not change, the result compares settled keys |
| CoreList.RegenOfUpper | bench/coremark/upstream/core_list_join.c:133-142 | rebuilding the lower byte forgets whatever happened to it |
| CoreList.FirstWantedIs | bench/coremark/upstream/core_list_join.c:434-449 | the search result is the one index that matches with no match in front of it |
| CoreList.Find | bench/coremark/upstream/core_list_join.c:434-449 | the first matching node, or null |
| CoreList.ListIsUnique | bench/coremark/upstream/core_list_join.c:464-476 | a heap and a head determine the nodes of a list |
| CoreList.Reverse | bench/coremark/upstream/core_list_join.c:464-476 | the list of the same nodes backwards |
| CoreList.Remove | bench/coremark/upstream/core_list_join.c:376-389 | the cell gives up its data to the removed one, which is unlinked |
| CoreList.UndoRemove | bench/coremark/upstream/core_list_join.c:407-419 | the removed cell is linked back and the data change places again |
| MergeOrder.TakeP | bench/coremark/upstream/core_list_join.c:551-558 | taking the head of the first run when its key is not larger keeps the merge in stable order |
| MergeOrder.TakeQ | bench/coremark/upstream/core_list_join.c:559-565 | so does taking the head of the second run when its key is smaller |
| MergeOrder.AppendRun | bench/coremark/upstream/core_list_join.c:515-581 | a merged block behind sorted runs of twice the length extends them |
| MergeOrder.RunsKept | bench/coremark/upstream/core_list_join.c:551-551 | settling further items does not disturb sorted runs |
| ListSort.CompareNodes | bench/coremark/upstream/core_list_join.c:551-551 | a comparison extends what is known of settled keys |
| ListSort.StepAlong | bench/coremark/upstream/core_list_join.c:519-527 | the second run starts insize places along, or at the end |
| ListSort.MergeStep | bench/coremark/upstream/core_list_join.c:533-577 | one turn of the merge loop moves one node to the end of the merged list, relinking it in place, and keeps all that is needed of both runs |
| ListSort.MergeRuns | bench/coremark/upstream/core_list_join.c:530-580 | a merge consumes both runs and leaves them as one stable sorted block |
| ListSort.JoinBlock | bench/coremark/upstream/core_list_join.c:515-581 | the pass invariant: the part done is in sorted runs of length 2 * insize |
| ListSort.SortPass | bench/coremark/upstream/core_list_join.c:509-583 | a pass leaves the same nodes in sorted runs of twice the length, with at most one comparison a node |
| ListSort.PassesIsLogarithm | bench/coremark/upstream/core_list_join.c:505-591 | the number of passes is the binary logarithm of the length rounded up, at least 1 |
| ListSort.SortedIsStable | bench/coremark/upstream/core_list_join.c:551-565 | order by key and then place means sorted, with equal keys in their old order |
| ListSort.SortPasses | bench/coremark/upstream/core_list_join.c:505-591 | the loop over the passes terminates with one sorted run |
| ListSort.MergeSort | bench/coremark/upstream/core_list_join.c:499-595 | for both comparators, every other that compares items by a key and changes nothing, and any list: a NULL-terminated list of exactly the same nodes, sorted and stable, upper bytes kept and values that need no kernel kept, every item of a list of two or more settled, in at most n * max(1, log2 n rounded up) comparisons |
| ListBench.CacheNext | bench/coremark/upstream/core_list_join.c:188-195 | the splice behind a hit moves the next node behind the head, also when the hit is the head or the last node |
| ListBench.FindOnce | bench/coremark/upstream/core_list_join.c:175-198 | one find: the reversed and spliced order, and the score, exactly |
| ListBench.ReorderedAt | bench/coremark/upstream/core_list_join.c:174-196 | where each node is after one find |
| ListBench.ScoreIs | bench/coremark/upstream/core_list_join.c:170-203 | the 16-bit score after any number of finds is the 16-bit value of the sum of what each find is worth, a hit being an item in the list with the idx, or when that is negative the low byte, searched for |
| ListBench.FindPhase | bench/coremark/upstream/core_list_join.c:170-203 | all finds: the order, the idx and byte searched last, and the score as a number modulo 2^16: for each find 4 for a hit and one more when the item is odd with bit 9 set, -1 for a miss and one more when bit 8 of the item behind the new head is set |
| ListBench.RemoveSecond | bench/coremark/upstream/core_list_join.c:207-207 | removing the item behind the head takes just that item out of the sequence of items |
| ListBench.RestoreSecond | bench/coremark/upstream/core_list_join.c:221-221 | undoing it restores links and items exactly |
| ListBench.CrcFrom | bench/coremark/upstream/core_list_join.c:213-217 | the checksum loop feeds the first item once for each node from the finder on |
| ListBench.RepeatIs | bench/coremark/upstream/core_list_join.c:213-217 | feeding a value n times is the CRC of the message that repeats its two bytes n times |
| ListBench.SumMeans | bench/coremark/upstream/core_list_join.c:207-221 | the sum of the removal phase is the CRC of the first item repeated for each item from the first match on among all but the second, or for all but the first of them |
| ListBench.RemovalPhase | bench/coremark/upstream/core_list_join.c:207-221 | removal, sum and undo leave list and items as they were, and the sum is determined |
| ListBench.SortedIsUnique | bench/coremark/upstream/core_list_join.c:222-223 | there is only one way to sort nodes with distinct idx |
| ListBench.StableSortIsUnique | bench/coremark/upstream/core_list_join.c:222-223 | there is only one way to sort nodes stably, whatever idx repeat |
| ListBench.TiesAreReversed | bench/coremark/upstream/core_list_join.c:170-198 | one search for idx 0 puts two nodes of equal idx out of order, wherever the search ends |
| ListBench.OneSearch | bench/coremark/upstream/core_list_join.c:170-203 | the order after the single search that seed3 == 1 asks for |
| ListBench.ComesBack | bench/coremark/upstream/core_list_join.c:156-223 | the last sort restores the order exactly when it was sorted and the shuffling kept nodes of equal idx in order |
| ListBench.TiesDecide | bench/coremark/upstream/core_list_join.c:205-223 | after the sort by value, nodes of equal idx are in order exactly when their values, and for equal values their places after the searches, are |
| ListBench.PlainTies | bench/coremark/upstream/core_list_join.c:69-113 | values that need no kernel are those the items came with, so that for such lists the condition can be checked in front of the call |
| ListBench.SumIs | bench/coremark/upstream/core_list_join.c:207-221 | the sum of the removal phase, computed from what the items hold then |
| ListBench.IndexPhase | bench/coremark/upstream/core_list_join.c:222-234 | the last sort, stable with respect to the order it was given, which also rebuilds every lower byte, and the last sum |
| ListBench.BenchList | bench/coremark/upstream/core_list_join.c:156-235 | the body leaves the same nodes sorted by idx, each with its own item, idx and upper bytes unchanged and lower bytes rebuilt, and returns the sum: the score as a number, fed with the first item for the removal phase and again for the last one; the order in front of the last sort is that of the searches, stably sorted by the cached values when finder_idx is positive; the order and the head are the old ones exactly when the list came in sorted by idx and, of nodes of equal idx, the first one has the smaller value, or an equal one and its place in front after the searches; always when it came in with strictly increasing idx, and with seed3 == 1 and finder_idx == 0 only then |
| ListInit.CellsAreDisjoint | bench/coremark/upstream/core_list_join.c:253-260 | headers and items lie in disjoint halves inside the block, no two cells overlapping |
| ListInit.CellsAre | bench/coremark/upstream/core_list_join.c:253-260 | the number of cells, and that each lies right behind the one before it |
| ListInit.PatternIs | bench/coremark/upstream/core_list_join.c:275-279 | the data of a new item as a number: four bits of index xor seed and three of the index, twice |
| ListInit.IdxMeans | bench/coremark/upstream/core_list_join.c:293-303 | the idx of each node as a number: its position in the first fifth, and behind it 14 bits mixed from the position, the next one and the seed |
| ListInit.InsertNew | bench/coremark/upstream/core_list_join.c:335-360 | insertion behind a node, refused when it would use the last cell |
| ListInit.FillList | bench/coremark/upstream/core_list_join.c:263-288 | exactly size - 1 cells are linked, the last inserted first, and hold their patterns |
| ListInit.IndexList | bench/coremark/upstream/core_list_join.c:290-305 | every inner node gets its idx, in order for the first fifth |
| ListInit.GreatestStaysLast | bench/coremark/upstream/core_list_join.c:306-306 | a stable sort leaves the fake tail last |
| ListInit.LeastStaysFirst | bench/coremark/upstream/core_list_join.c:306-306 | a stable sort leaves the first node first exactly when no key is smaller |
| ListInit.InitList | bench/coremark/upstream/core_list_join.c:250-319 | size - 1 nodes sorted by idx, each item with its pattern and the idx of its place before the sort, the fake tail last; the fake head is first exactly when the indices given in order fit 16 bits |
| ListInit.IdxRepeats | bench/coremark/upstream/core_list_join.c:290-305 | in a block of 666 bytes with seed 2 the idx 5 is given twice |
| ListInit.BuiltListMayTie | bench/coremark/upstream/core_list_join.c:250-319 | so that the list built there has no strictly increasing idx |
| Crc.ShiftOutIsFeed | bench/coremark/upstream/core_util.c:171-184 | the split subtraction of the routine is one step of the shift register with the reflected polynomial |
| Crc.FeedMoves | bench/coremark/upstream/core_util.c:171-184 | one step bit by bit: the difference enters at the places of the reflected polynomial x^16 + x^15 + x^2 + 1, and all other bits move down |
| Crc.Crcu8 | bench/coremark/upstream/core_util.c:164-188 | the loop over the bits of a byte computes the reference CRC |
| Crc.Crcu16 | bench/coremark/upstream/core_util.c:189-195 | two bytes, low one first |
| Crc.Crcu32 | bench/coremark/upstream/core_util.c:196-202 | four bytes, lowest first, each written out as eight bits of the value |
| Crc.Crc16 | bench/coremark/upstream/core_util.c:203-207 | as for the unsigned value |
| Crc.CrcIsLinear | bench/coremark/upstream/core_util.c:164-188 | linear over exclusive or, register and data together |
| Crc.CrcIsBijective | bench/coremark/upstream/core_util.c:164-188 | for fixed data a bijection of the register, with its inverse |
| Crc.WordIsRegisterDifference | bench/coremark/upstream/core_util.c:189-195 | feeding v into c is feeding 0 into v ^ c |
| Crc.BurstsAreDetected | bench/coremark/upstream/core_util.c:164-207 | two messages of any length that differ only within 16 consecutive bits have different CRCs |
| Crc.AdjacentByteErrorsAreDetected | bench/coremark/upstream/core_util.c:164-207 | two byte messages that differ only within two adjacent bytes have different CRCs |
| Crc.OddErrorsAreDetected | bench/coremark/upstream/core_util.c:164-207 | messages that differ in an odd number of bits have different CRCs |
| SoftArith.ShiftKeepsPartial | bench/common/soft_arith.c:17-23 | the shift of the partial remainder never loses a bit, whatever the divisor |
| SoftArith.UDivMod32 | bench/common/soft_arith.c:4-29 | quotient and remainder, and the result for a zero divisor |
| SoftArith.UDivSi3 | bench/common/soft_arith.c:46-49 | the quotient |
| SoftArith.UModSi3 | bench/common/soft_arith.c:51-56 | the remainder |
| SoftArith.MulSi3 | bench/common/soft_arith.c:31-44 | the product modulo 2^32 |
| SoftArith.TruncatingDivision | bench/common/soft_arith.c:58-105 | quotient and remainder are the one division that truncates toward zero with the remainder taking the sign of the dividend |
| SoftArith.QuotientOverflows | bench/common/soft_arith.c:58-81 | the quotient fits 32 bits in all cases but one, and then wraps to the least number |
| SoftArith.DivSi3 | bench/common/soft_arith.c:58-81 | the wrapped truncating quotient |
| SoftArith.ModSi3 | bench/common/soft_arith.c:83-106 | the truncating remainder |
| CoreState.KindMeans | bench/coremark/upstream/core_state.c:197-330 | the classes of symbols by character: digits, the two signs, the point, e and E, comma and NUL |
| CoreState.Classification | bench/coremark/upstream/core_state.c:216-330 | the machine ends in INT, FLOAT or SCIENTIFIC exactly for the tokens [+-]?d+, [+-]?d*.d* and [+-]?d*.d*[eE][+-]d+ |
| CoreState.MovesAt | bench/coremark/upstream/core_state.c:216-330 | move k of the scanner goes from the state of the first k symbols to that of the first k + 1 |
| CoreState.BumpsAreMoves | bench/coremark/upstream/core_state.c:230-326 | every counter of a scan, by its moves: START, S1, S2 and EXPONENT count the symbols read in those states, INT and FLOAT those that leave them, INVALID the steps into it from START and SCIENTIFIC |
| CoreState.StartIsCountedOnce | bench/coremark/upstream/core_state.c:230-252 | a scan counts START once, or not at all in front of a comma |
| CoreState.Switch | bench/coremark/upstream/core_state.c:230-326 | one turn of the switch: next state and counters |
| CoreState.ScanIsRun | bench/coremark/upstream/core_state.c:216-330 | a scan ends in the state of the whole token, and reads a valid token in full |
| CoreState.ScanProgress | bench/coremark/upstream/core_state.c:216-330 | a scan in front of a NUL advances, but not past the NUL |
| CoreState.StateTransition | bench/coremark/upstream/core_state.c:216-330 | end state, place and every counter of the scanner, the counters also by the moves between the states of the prefixes read |
| StateBench.SlicesCover | bench/coremark/upstream/core_state.c:66-76 | the slices of repeated scans are not empty and put together they are the input up to the NUL |
| StateBench.SlicesClassify | bench/coremark/upstream/core_state.c:66-76 | the state of each slice classifies the token that starts there |
| StateBench.ScanAll | bench/coremark/upstream/core_state.c:66-76 | the outer loop terminates, with all counts |
| StateBench.FinalCountsSum | bench/coremark/upstream/core_state.c:66-76 | the final counts add up to the number of slices |
| StateBench.Corrupt | bench/coremark/upstream/core_state.c:77-83 | every step-th byte that is not a comma is changed, and no other |
| StateBench.CorruptedAt | bench/coremark/upstream/core_state.c:77-83 | which bytes the corruption combines with its value, and which it leaves |
| StateBench.UndoCorruption | bench/coremark/upstream/core_state.c:77-103 | corrupting twice with one value restores the input exactly when the value is 0 or no visited byte is a comma xor the value |
| StateBench.CommaStays | bench/coremark/upstream/core_state.c:77-103 | the digit 0 corrupted with 0x1C becomes a comma, and undoing that leaves the comma |
| StateBench.ScansStayInside | bench/coremark/upstream/core_state.c:77-94 | with two zero bytes at the end and a step of at least 2 a NUL always remains |
| StateBench.CountsMessageIs | bench/coremark/upstream/core_state.c:105-109 | the message that the counts are fed as: for each state the four bytes of both counts modulo 2^32, least significant first |
| StateBench.TwoScansMean | bench/coremark/upstream/core_state.c:61-94 | each final count is the number of slices of both scans in that state, each other count the number of moves in them that bump it |
| StateBench.BenchState | bench/coremark/upstream/core_state.c:46-111 | the buffer afterwards, the condition for its restoration, the counts of both scans and the CRC of them |
| StateInput.InitState | bench/coremark/upstream/core_state.c:139-195 | just the first size bytes are written, with the patterns that fit and zeros |
| StateInput.Input | bench/coremark/upstream/core_state.c:139-195 | for size 2 and more the last two bytes are zero |
| StateInput.PatternText | bench/coremark/upstream/core_state.c:114-191 | the characters of the pattern for each seed |
| StateInput.InputIs | bench/coremark/upstream/core_state.c:139-195 | the buffer holds the patterns of the seeds behind the one given, each with a comma, as many as leave two bytes of room, and zeros |
| StateInput.PatternsScan | bench/coremark/upstream/core_state.c:114-127 | each pattern is one token, and which state it scans to |
| StateInput.InputIsSafe | bench/coremark/upstream/core_state.c:46-111 | on its own input, with a step of at least 2, neither scan leaves the buffer |
| AxiMonitor.CheckHold | test/test_ditdah32/test_ditdah32.py:716-733 | what is held, and the violations of one channel |
| AxiMonitor.CheckReads | test/test_ditdah32/test_ditdah32.py:735-762 | the read counter and its events |
| AxiMonitor.CheckWrites | test/test_ditdah32/test_ditdah32.py:764-806 | the write flags and their events |
| AxiMonitor.EdgeLog | test/test_ditdah32/test_ditdah32.py:698-806 | an event is logged for an edge exactly when it is a handshake there, a request that starts to wait, or a violation, with the counters in front of the edge |
| AxiMonitor.LogHolds | test/test_ditdah32/test_ditdah32.py:698-806 | the whole log holds just these events |
| AxiMonitor.SeenIs | test/test_ditdah32/test_ditdah32.py:764-806 | the write flags on any bus, clean or not: a request since the last response or reset |
| AxiMonitor.PendingIs | test/test_ditdah32/test_ditdah32.py:735-762 | the read counter on any bus never falls below zero |
| AxiMonitor.HoldVerdict | test/test_ditdah32/test_ditdah32.py:716-733 | on every run a hold violation is logged exactly when VALID or the payload did not hold until READY |
| AxiMonitor.EdgeVerdict | test/test_ditdah32/test_ditdah32.py:698-806 | with true counters in front of an edge the monitor complains exactly when the rule is broken there, and else its counters stay true |
| AxiMonitor.CleanPrefix | test/test_ditdah32/test_ditdah32.py:698-806 | by any edge the monitor has complained exactly when the rule was broken before it |
| AxiMonitor.MonitorProtocol | test/test_ditdah32/test_ditdah32.py:698-806 | over any history nothing is reported exactly when the bus was clean, and then the counters are the differences of accepted handshakes |
| AxiMonitor.CleanIsBalanced | test/test_ditdah32/test_ditdah32.py:698-806 | a bus is clean exactly when requests held, after every edge at most one read, one write address and one write data were open, and no channel took a request in front of which one of its own was open |
| AxiMonitor.BackToBackReads | test/test_ditdah32/test_ditdah32.py:735-762 | without that last condition a bus may be balanced after every edge and still be reported |
| AddressSpaces.MemoryRegion.Read | test/cocotbext/axi/address_space.py:53-74 | range checks and contents |
| AddressSpaces.MemoryRegion.Write | test/cocotbext/axi/address_space.py:53-59 | range checks, and just the range is written |
| AddressSpaces.OverlapsMeans | test/cocotbext/axi/address_space.py:273-277 | a region is found when it shares an address with the range, or is empty and inside it |
| AddressSpaces.ClashMeans | test/cocotbext/axi/address_space.py:278-278 | the comparison of two entries fails just when they differ and neither comes first |
| AddressSpaces.FoundIsChain | test/cocotbext/axi/address_space.py:267-278 | find_regions gives just the overlapping regions, one behind the other, empty ones included |
| AddressSpaces.AddressSpace.FindRegions | test/cocotbext/axi/address_space.py:267-278 | the result or the error for every range and every table: just the overlapping regions; the failing comparison of entries with equal base and size is an error too |
| AddressSpaces.OnlyEmptyClash | test/cocotbext/axi/address_space.py:267-278 | in a table without empty regions no such comparison happens |
| AddressSpaces.AddressSpace.RegisterRegion | test/cocotbext/axi/address_space.py:280-291 | a region is refused exactly when it would overlap one; regions keep apart, empty ones too; a region that fits its memory keeps all of them fitting, one with a memory of its own keeps memories unshared |
| AddressSpaces.WalkSteps | test/cocotbext/axi/address_space.py:293-312 | the next region found has the next address, or no region has it |
| AddressSpaces.AddressSpace.Read | test/cocotbext/axi/address_space.py:293-312 | for every table a read answers what going through the found entries one by one gives; when all regions fit their memories a range is read exactly when all of it is covered, and then gives the flat contents, however many regions it spans; a range within one region gives the bytes of its memory from offset plus address minus base on, or from the address on without an offset |
| AddressSpaces.ByteOfRegion | test/cocotbext/axi/address_space.py:306-311 | byte k of a region is at its offset plus k in the memory, or at the address itself without an offset |
| AddressSpaces.ReadOfOne | test/cocotbext/axi/address_space.py:293-312 | a range within one region is read from its memory: from offset plus address minus base, or from the address without an offset; the error when that is outside of the memory |
| AddressSpaces.MappedIsRead | test/cocotbext/axi/address_space.py:280-312 | a region mapped at a base with the default offset 0 is then read as the bytes of its memory counted from that base |
| AddressSpaces.ReadIsFlat | test/cocotbext/axi/address_space.py:293-312 | the read of any table of regions that fit is the read of the flat byte map |
| AddressSpaces.UnfitRegionFails | test/cocotbext/axi/address_space.py:293-312 | a region that does not fit its memory cannot be read whole, although all of it is covered |
| AddressSpaces.AddressSpace.Write | test/cocotbext/axi/address_space.py:314-333 | for every table the error and the new contents of all memories; when regions fit memories of their own a covered range is written exactly, a range with a gap is refused after the part in front of the gap has been written, and no other byte of any memory changes |
| AddressSpaces.WriteOfOne | test/cocotbext/axi/address_space.py:314-333 | a write within one region changes just those bytes of its memory |
| AddressSpaces.MappedIsWritten | test/cocotbext/axi/address_space.py:280-333 | a region mapped at a base with the default offset 0 is then written counted from that base |
| AddressSpaces.WriteIsFlat | test/cocotbext/axi/address_space.py:314-333 | the write of any table of regions that fit memories of their own is a write of the flat byte map up to the first gap |
| AddressSpaces.WrittenBytes | test/cocotbext/axi/address_space.py:314-333 | seen as a flat byte map just the range written has changed |
| AddressSpaces.CreateWindow | test/cocotbext/axi/address_space.py:123-129 | the window has the offset and size given, or reaches to the end, and is refused exactly when it would not lie within what it is a window onto; its base is the absolute address of its start |
| AddressSpaces.AbsoluteIsRootAbsolute | test/cocotbext/axi/address_space.py:61-65 | an absolute address is that of the root plus all offsets |
| AddressSpaces.ReadInterface | test/cocotbext/axi/address_space.py:144-164 | a read through nested windows is the read of the root at the sum of the offsets, whatever is mapped there |
| AddressSpaces.WriteInterface | test/cocotbext/axi/address_space.py:144-167 | so is a write |

## Left out

- `parse_hex_words`, `main`, hexadecimal strings of trace records and all reporting: text handling.
- Directed programs of the regression script: fixed instances of what is proved for all programs.
- The random number generator: every sequence of choices is covered, so no choice needs a seed.
- CoreList.CalcFunc: `core_bench_state` and `core_bench_matrix` may return any value, so that the proofs hold for every kernel; the sort relies only on the value being cached.
- ListBench.BenchList: the values of items that need a benchmark kernel are whatever the kernel returned; everything else, the returned checksum included, is stated as a function of them.
- ListSort.MergeSort: run lengths and counts are unbounded integers; in the source they are 32 bits, which lists in a 32-bit address space do not exceed.
- ListInit.InitList: the block is a sequence of cells that exist already instead of raw bytes; the byte layout is stated separately.
- StateBench.BenchState: counters are unbounded until they are fed into the CRC, where they are taken modulo 2^32; the buffer is exactly as long as the size given.
- StateInput.InitState: sizes are unbounded, so that the sum in the loop condition does not wrap around.
- SoftArith.DivSi3: negation wraps, as on the compilers this code is for; the C standard leaves the negation of the least number undefined.
- AddressSpaces.AddressSpace.Read: regions are memories, not nested address spaces or peripherals.
- Word and double word accesses, window pools, memory allocators and sparse memories of the bus models: repeated byte accesses, or not part of this model.
- `core_matrix.c`, the runtime, Dhrystone, and the floating point stubs of the software arithmetic: simple loops or constants.
- The RTL, its formal proofs, the debug module and the simulator tests: hardware and stimulus.
- Scripts for continuous integration, audits, packaging and reports: files and subprocesses.
