/** The trace is a complete log of a run: it can be replayed, it chains, and it ends where the run ends. */
module Trace {
  import opened Words
  import opened Isa
  import opened Machine
  import opened Runs

  predicate IsWfi(item: Record) {
    item.cause.None? && item.length != 2 && item.insn == 0x1050_0073
  }

  function ReplayItem(memory: Memory, item: Record): Memory {
    ReplayStore(memory, item.effect, StoreWidth(item.insn, item.length))
  }

  function ReplayRegs(regs: RegFile, items: seq<Record>): RegFile
    decreases |items|
  {
    if items == [] then regs else ReplayRegs(ReplayReg(regs, items[0].effect), items[1..])
  }

  function ReplayMemory(memory: Memory, items: seq<Record>): Memory
    decreases |items|
  {
    if items == [] then memory else ReplayMemory(ReplayItem(memory, items[0]), items[1..])
  }

  /** after is what one step makes of before, and item is the record it appended. After a trap
      everything is as it was, but for the CSR that a late trap wrote. */
  ghost predicate Logged(before: Machine, after: Machine, item: Record) {
    && after.trace == before.trace + [item]
    && item.cycle == before.cycle && after.cycle == before.cycle + 1
    && item.pc == before.arch.pc
    && after.arch.regs == ReplayReg(before.arch.regs, item.effect)
    && after.arch.memory == ReplayItem(before.arch.memory, item)
    && (item.cause.Some? <==> after.halted)
    && (IsWfi(item) <==> after.sleeping)
    && (item.cause.Some? ==> after.arch == AfterTrapWord(before.arch, item.insn, item.length))
  }

  /** The record a step appends. */
  function StepItem(m: Machine): Record
    requires m.Running()
  {
    match Fetch(m.arch)
    case Failure(cause) => Record(m.cycle, m.arch.pc, 0, 4, NO_EFFECT, Some(cause))
    case Success((insn, length)) =>
      match Execute(m.arch, insn, length)
      case Done(arch, effect) => Record(m.cycle, m.arch.pc, insn, length, effect, None)
      case Asleep(arch) => Record(m.cycle, m.arch.pc, insn, length, NO_EFFECT, None)
      case Trapped(arch, cause) => Record(m.cycle, m.arch.pc, insn, length, NO_EFFECT, Some(cause))
  }

  lemma ReplayRegKeepsZero(regs: RegFile, effect: Effect)
    requires regs[0] == 0
    ensures ReplayReg(regs, effect)[0] == 0
  {
    hide SetReg;
    if effect.rd.Some? && effect.rd.value < 16 {
      SetRegKeepsZero(regs, effect.rd.value, effect.rdData);
    }
  }

  lemma ClearX0(regs: RegFile)
    requires regs[0] == 0
    ensures regs[0 := 0] == regs
  {
  }

  /** Fetch failures name no CSR instruction. */
  lemma ZeroIsNoCsr(s: Arch)
    ensures AfterTrapWord(s, 0, 4) == s
  {
  }

  lemma StepIsLogged(m: Machine)
    requires m.Running() && m.arch.regs[0] == 0
    ensures Logged(m, Step(m), StepItem(m)) && Step(m).arch.regs[0] == 0
  {
    hide Fetch, Execute, ReplayReg, ReplayStore, StoreWidth, AfterTrapWord;
    NothingReplayed(m.arch.regs, m.arch.memory, StoreWidth(0, 4));
    ClearX0(m.arch.regs);
    match Fetch(m.arch)
    case Failure(cause) =>
      ZeroIsNoCsr(m.arch);
    case Success((insn, length)) =>
      ExecuteAccounted(m.arch, insn, length);
      AsleepOnlyOnWfi(m.arch, insn, length);
      NothingReplayed(m.arch.regs, m.arch.memory, StoreWidth(insn, length));
      var o := Execute(m.arch, insn, length);
      if o.Done? {
        ReplayRegKeepsZero(m.arch.regs, o.effect);
      } else if o.Trapped? {
        TrapsTouchNoRegister(m.arch, insn, length);
      }
      ClearX0(o.arch.regs);
  }

  lemma NothingReplayed(regs: RegFile, memory: Memory, width: StoreOp)
    ensures ReplayReg(regs, NO_EFFECT) == regs && ReplayStore(memory, NO_EFFECT, width) == memory
  {
  }

  // ---------------------------------------------------------------- whole runs

  /** The records that at most maxSteps steps append. */
  function Items(m: Machine, maxSteps: nat): seq<Record>
    decreases maxSteps
  {
    if maxSteps == 0 || !m.Running() then [] else [StepItem(m)] + Items(Step(m), maxSteps - 1)
  }

  /** Replaying the log gives the registers and memory of the end. */
  ghost predicate Replays(m: Machine, items: seq<Record>, end: Machine) {
    ReplayRegs(m.arch.regs, items) == end.arch.regs && ReplayMemory(m.arch.memory, items) == end.arch.memory
  }

  /** The records are numbered in order, and each names the pc the steps before it left. */
  ghost predicate Chains(m: Machine, items: seq<Record>, end: Machine) {
    && end.trace == m.trace + items
    && end.cycle == m.cycle + |items|
    && (forall k :: 0 <= k < |items| ==> items[k].cycle == m.cycle + k && items[k].pc == Run(m, k).arch.pc)
  }

  /** A trap or a WFI can only be the last record, and then the machine has stopped for that reason. */
  ghost predicate Ends(m: Machine, items: seq<Record>, end: Machine) {
    && (forall k :: 0 <= k < |items| - 1 ==> items[k].cause.None? && !IsWfi(items[k]))
    && (items == [] ==> end == m)
    && (items != [] ==>
          var last := items[|items| - 1];
          (end.halted <==> last.cause.Some?) && (end.sleeping <==> IsWfi(last)))
  }

  /** The log of a run from m to end: complete, chained and replayable. */
  ghost predicate CompleteLog(m: Machine, items: seq<Record>, end: Machine) {
    Replays(m, items, end) && Chains(m, items, end) && Ends(m, items, end)
  }

  /** The log of a whole run: it follows the log so far, its records are numbered in order and name the
      pc that the run had by then, replaying it gives the final registers and memory, and a trap or a WFI
      can only be last and is why the run stopped. */
  lemma RunIsLogged(m: Machine, maxSteps: nat)
    requires m.arch.regs[0] == 0
    ensures var items, end := Items(m, maxSteps), Run(m, maxSteps);
            && end.trace == m.trace + items && end.cycle == m.cycle + |items|
            && (forall k :: 0 <= k < |items| ==> items[k].cycle == m.cycle + k && items[k].pc == Run(m, k).arch.pc)
            && ReplayRegs(m.arch.regs, items) == end.arch.regs && ReplayMemory(m.arch.memory, items) == end.arch.memory
            && (forall k :: 0 <= k < |items| - 1 ==> items[k].cause == None && !IsWfi(items[k]))
            && (|items| == maxSteps || end.halted || end.sleeping)
            && if items == [] then end == m
               else (end.halted <==> items[|items| - 1].cause != None) && (end.sleeping <==> IsWfi(items[|items| - 1]))
  {
    RunLogged(m, maxSteps);
    hide Run, Items, IsWfi, ReplayRegs, ReplayMemory;
  }

  lemma {:induction false} RunLogged(m: Machine, maxSteps: nat)
    requires m.arch.regs[0] == 0
    ensures CompleteLog(m, Items(m, maxSteps), Run(m, maxSteps))
    ensures |Items(m, maxSteps)| == maxSteps || !Run(m, maxSteps).Running()
    decreases maxSteps
  {
    hide Step, StepItem, CompleteLog, Logged;
    if !m.Running() {
      StoppedRun(m, maxSteps);
      EmptyLog(m);
    } else if maxSteps == 0 {
      EmptyLog(m);
    } else {
      StepIsLogged(m);
      RunLogged(Step(m), maxSteps - 1);
      LogExtends(m, maxSteps);
    }
  }

  lemma EmptyLog(m: Machine)
    ensures CompleteLog(m, [], m)
  {
  }

  /** One logged step in front of a complete log is a complete log. */
  lemma LogExtends(m: Machine, maxSteps: nat)
    requires m.Running() && maxSteps > 0
    requires Logged(m, Step(m), StepItem(m))
    requires CompleteLog(Step(m), Items(Step(m), maxSteps - 1), Run(Step(m), maxSteps - 1))
    ensures CompleteLog(m, Items(m, maxSteps), Run(m, maxSteps))
  {
    hide Step, StepItem, Replays, Chains, Ends;
    var rest := Items(Step(m), maxSteps - 1);
    ReplayExtends(m, Step(m), StepItem(m), rest, Run(Step(m), maxSteps - 1));
    ChainExtends(m, StepItem(m), rest, Run(Step(m), maxSteps - 1));
    EndExtends(m, maxSteps);
  }

  lemma ReplayExtends(m: Machine, next: Machine, item: Record, rest: seq<Record>, end: Machine)
    requires next.arch.regs == ReplayReg(m.arch.regs, item.effect)
    requires next.arch.memory == ReplayItem(m.arch.memory, item)
    requires Replays(next, rest, end)
    ensures Replays(m, [item] + rest, end)
  {
    hide ReplayReg, ReplayItem;
    assert ([item] + rest)[1..] == rest;
  }

  lemma ChainExtends(m: Machine, item: Record, rest: seq<Record>, end: Machine)
    requires Step(m).trace == m.trace + [item] && Step(m).cycle == m.cycle + 1
    requires item.cycle == m.cycle && item.pc == m.arch.pc
    requires Chains(Step(m), rest, end)
    ensures Chains(m, [item] + rest, end)
  {
    hide Step;
    var items := [item] + rest;
    assert m.trace + items == (m.trace + [item]) + rest;
    forall k | 0 <= k < |items|
      ensures items[k].cycle == m.cycle + k && items[k].pc == Run(m, k).arch.pc
    {
      if k > 0 {
        assert items[k] == rest[k - 1];
        assert Run(m, k) == Run(Step(m), k - 1);
      }
    }
  }

  lemma EndExtends(m: Machine, maxSteps: nat)
    requires m.Running() && maxSteps > 0
    requires Logged(m, Step(m), StepItem(m))
    requires Ends(Step(m), Items(Step(m), maxSteps - 1), Run(Step(m), maxSteps - 1))
    ensures Ends(m, Items(m, maxSteps), Run(m, maxSteps))
  {
    hide Step, StepItem, IsWfi, ReplayReg, ReplayItem, AfterTrapWord;
    var rest := Items(Step(m), maxSteps - 1);
    var items := [StepItem(m)] + rest;
    assert Items(m, maxSteps) == items;
    assert Run(m, maxSteps) == Run(Step(m), maxSteps - 1);
    if rest != [] {
      assert Step(m).Running();
      assert items[|items| - 1] == rest[|rest| - 1];
      forall k | 0 <= k < |items| - 1
        ensures items[k].cause.None? && !IsWfi(items[k])
      {
        if k > 0 {
          assert items[k] == rest[k - 1];
        }
      }
    }
  }

  /** Running a steps and then b steps is running a + b steps. */
  lemma {:induction false} RunComposes(m: Machine, a: nat, b: nat)
    ensures Run(m, a + b) == Run(Run(m, a), b)
    decreases a
  {
    hide Step;
    if a > 0 {
      RunComposes(Step(m), a - 1, b);
    }
  }

  // ---------------------------------------------------------------- the invariant over runs

  lemma StepKeepsSound(m: Machine)
    requires Sound(m.arch) && m.Running()
    ensures Sound(Step(m).arch) && StepItem(m).cause != Some(InstructionMisaligned)
  {
    hide Execute, Even, CsrsInMask;
    EvenMeaning(m.arch.pc);
    hide HalfWord, Word;
    match Fetch(m.arch)
    case Failure(cause) =>
    case Success((insn, length)) =>
      ExecuteSound(m.arch, insn, length);
      ClearX0(Execute(m.arch, insn, length).arch.regs);
  }

  /** From an even pc with x0 zero and CSRs within their masks, every run keeps all three, and no
      step ever raises an instruction address misaligned trap. */
  lemma {:induction false} RunKeepsSound(m: Machine, maxSteps: nat)
    requires Sound(m.arch)
    ensures Sound(Run(m, maxSteps).arch)
    ensures forall item :: item in Items(m, maxSteps) ==> item.cause != Some(InstructionMisaligned)
    decreases maxSteps
  {
    hide Step, StepItem, Sound;
    if !m.Running() {
      StoppedRun(m, maxSteps);
    } else if maxSteps > 0 {
      StepKeepsSound(m);
      RunKeepsSound(Step(m), maxSteps - 1);
    }
  }
}
