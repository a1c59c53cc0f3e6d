/** Stepping and running whole blocks: one step_block is some number of steps. */
module Blocks {
  import opened Words
  import opened Regions
  import opened Registers
  import opened Instructions
  import opened Machine

  datatype Record = Record(ip: u64, text: string, before: RegisterFile, after: RegisterFile)

  /** Memory, registers, outcome and trace after some execution. */
  datatype Run = Run(mem: Mem, regs: RegisterFile, result: Result<StepOutcome, CpuError>, trace: seq<Record>)

  /** The parts of an interpreter that stay fixed: decoder, instructions and vsyscall handling. */
  datatype Cpu = Cpu(dec: Decoder, exec: Exec, vsyscall: (Mem, RegisterFile) -> Run)

  ghost predicate CpuOk(cpu: Cpu) { DecoderOk(cpu.dec) && ExecOk(cpu.exec) }

  predicate IsVsyscall(ip: int) {
    ip == 0xffffffffff600000 || ip == 0xffffffffff600400 || ip == 0xffffffffff600800
  }

  /** One instruction: an error is wrapped with its address and text, a success is traced. */
  function One(exec: Exec, i: Insn, m: Mem, r: RegisterFile): Run {
    var e := exec(i, m, r);
    match e.result
    case Err(x) => Run(e.mem, e.regs, Err(ExecutionError(i.ip, i.text, x)), [])
    case Ok(_) => Run(e.mem, e.regs, e.result, [Record(i.ip, i.text, r, e.regs)])
  }

  /** step: decode at rip and execute. */
  function Step(cpu: Cpu, m: Mem, r: RegisterFile): Run {
    if IsVsyscall(r.rip) then cpu.vsyscall(m, r)
    else
      match Decode(cpu.dec, m, r.rip)
      case Err(e) => Run(m, r, Err(e), [])
      case Ok(i) => One(cpu.exec, i, m, r)
  }

  function Then(a: Run, b: Run): Run { b.(trace := a.trace + b.trace) }

  /** k calls of step, ending early at a trap or an error. */
  function Steps(cpu: Cpu, m: Mem, r: RegisterFile, k: nat): Run
    requires k > 0
    decreases k
  {
    var one := Step(cpu, m, r);
    if k == 1 || one.result != Ok(Continue) then one else Then(one, Steps(cpu, one.mem, one.regs, k - 1))
  }

  /** The loop of step_block over already decoded instructions. */
  function BlockRun(exec: Exec, code: seq<Insn>, m: Mem, r: RegisterFile): Run
    decreases |code|
  {
    if code == [] || r.rip != code[0].ip then Run(m, r, Ok(Continue), [])
    else
      var one := One(exec, code[0], m, r);
      if one.result != Ok(Continue) || code[0].Kind() != Compute then one
      else Then(one, BlockRun(exec, code[1..], one.mem, one.regs))
  }

  /** step_block, with the block translated afresh. */
  function StepBlock(cpu: Cpu, m: Mem, r: RegisterFile): Run {
    if IsVsyscall(r.rip) then cpu.vsyscall(m, r)
    else
      match Translate(cpu.dec, m, r.rip, MAX_BLOCK_INSTRUCTIONS)
      case Err(e) => Run(m, r, Err(e), [])
      case Ok(code) => BlockRun(cpu.exec, code, m, r)
  }

  /** No instruction of the run stores into bytes of the block behind it. */
  predicate NeverPatches(exec: Exec, code: seq<Insn>, m: Mem, r: RegisterFile)
    decreases |code|
  {
    |code| > 1 && exec(code[0], m, r).result.Ok? ==>
      && MissAll(exec(code[0], m, r).stores, code[1].ip, EndOf(code))
      && NeverPatches(exec, code[1..], exec(code[0], m, r).mem, exec(code[0], m, r).regs)
  }

  predicate NoVsyscall(code: seq<Insn>) {
    forall j :: 0 <= j < |code| ==> !IsVsyscall(code[j].ip)
  }

  // ------------------------------------------------------------ a block is a run of steps

  /** The rest of a block is the block at its second instruction. */
  lemma SecondInBlock(dec: Decoder, m: Mem, ip: u64, n: nat, code: seq<Insn>)
    requires DecoderOk(dec) && n > 0 && Translate(dec, m, ip, n) == Ok(code) && |code| > 1
    ensures n > 1 && code[0].Kind() == Compute && code[0].Next() == code[1].ip
    ensures Translate(dec, m, code[1].ip, n - 1) == Ok(code[1..]) && EndOf(code[1..]) == EndOf(code)
  {
    TranslateFacts(dec, m, ip, n, code);
    TranslateUnfolds(dec, m, ip, n, code);
  }

  /** After a Compute instruction the rest of the block translates as before, and rip is at its start. */
  lemma NextInBlock(cpu: Cpu, m: Mem, r: RegisterFile, n: nat, code: seq<Insn>)
    requires CpuOk(cpu) && n > 0 && Translate(cpu.dec, m, r.rip, n) == Ok(code) && |code| > 1
    requires NeverPatches(cpu.exec, code, m, r) && One(cpu.exec, code[0], m, r).result == Ok(Continue)
    ensures var one := One(cpu.exec, code[0], m, r);
            && n > 1 && code[0].Kind() == Compute && one.regs.rip == code[1].ip
            && Translate(cpu.dec, one.mem, one.regs.rip, n - 1) == Ok(code[1..])
            && NeverPatches(cpu.exec, code[1..], one.mem, one.regs)
  {
    var e := cpu.exec(code[0], m, r);
    assert EffectOk(code[0], m, e);
    SecondInBlock(cpu.dec, m, r.rip, n, code);
    TranslateAfterStores(cpu.dec, m, e.mem, e.stores, code[1].ip, n - 1, code[1..]);
  }

  lemma StepsFold(cpu: Cpu, m: Mem, r: RegisterFile, one: Run, rest: Run, k: nat)
    requires k > 0 && Step(cpu, m, r) == one && one.result == Ok(Continue) && Steps(cpu, one.mem, one.regs, k) == rest
    ensures Steps(cpu, m, r, k + 1) == Then(one, rest)
  {
  }

  lemma BlockUnfolds(exec: Exec, code: seq<Insn>, m: Mem, r: RegisterFile, out: Run)
    requires |code| > 0 && r.rip == code[0].ip && BlockRun(exec, code, m, r) == out
    ensures var one := One(exec, code[0], m, r);
            if one.result != Ok(Continue) || code[0].Kind() != Compute || |code| == 1 then out == one
            else out == Then(one, BlockRun(exec, code[1..], one.mem, one.regs))
  {
    var one := One(exec, code[0], m, r);
    if |code| == 1 { assert BlockRun(exec, code[1..], one.mem, one.regs).trace == [] && one.trace + [] == one.trace; }
  }

  /** Each instruction of the run is the one that decoding at rip gives when its turn comes. */
  ghost predicate Faithful(cpu: Cpu, code: seq<Insn>, m: Mem, r: RegisterFile)
    decreases |code|
  {
    && |code| > 0 && code[0].ip == r.rip && !IsVsyscall(r.rip) && Decode(cpu.dec, m, r.rip) == Ok(code[0])
    && (|code| > 1 && cpu.exec(code[0], m, r).result == Ok(Continue) ==>
          code[0].Kind() == Compute && Faithful(cpu, code[1..], cpu.exec(code[0], m, r).mem, cpu.exec(code[0], m, r).regs))
  }

  lemma {:induction false} TranslatedIsFaithful(cpu: Cpu, m: Mem, r: RegisterFile, n: nat, code: seq<Insn>)
    requires CpuOk(cpu) && n > 0 && Translate(cpu.dec, m, r.rip, n) == Ok(code)
    requires NeverPatches(cpu.exec, code, m, r) && NoVsyscall(code)
    ensures Faithful(cpu, code, m, r)
    decreases n
  {
    TranslateUnfolds(cpu.dec, m, r.rip, n, code);
    assert !IsVsyscall(code[0].ip);
    var e := cpu.exec(code[0], m, r);
    if |code| > 1 && e.result == Ok(Continue) {
      NextInBlock(cpu, m, r, n, code);
      TranslatedIsFaithful(cpu, e.mem, e.regs, n - 1, code[1..]);
    }
  }

  lemma {:induction false} FaithfulIsSteps(cpu: Cpu, m: Mem, r: RegisterFile, code: seq<Insn>, out: Run) returns (k: nat)
    requires Faithful(cpu, code, m, r) && BlockRun(cpu.exec, code, m, r) == out
    ensures 1 <= k <= |code| && Steps(cpu, m, r, k) == out
    decreases |code|
  {
    BlockUnfolds(cpu.exec, code, m, r, out);
    var one := One(cpu.exec, code[0], m, r);
    if one.result != Ok(Continue) || code[0].Kind() != Compute || |code| == 1 {
      k := 1;
    } else {
      var rest := BlockRun(cpu.exec, code[1..], one.mem, one.regs);
      var j := FaithfulIsSteps(cpu, one.mem, one.regs, code[1..], rest);
      StepsFold(cpu, m, r, one, rest, j);
      k := j + 1;
    }
  }

  /** The block at rip translates, does not patch itself and does not run into a vsyscall address. */
  predicate PlainBlock(cpu: Cpu, m: Mem, r: RegisterFile) {
    match Translate(cpu.dec, m, r.rip, MAX_BLOCK_INSTRUCTIONS)
    case Err(_) => false
    case Ok(code) => NeverPatches(cpu.exec, code, m, r) && NoVsyscall(code)
  }

  /** One step_block has the registers, memory, outcome and trace of k steps, for some k from 1 to 64. */
  lemma StepBlockRefinesSteps(cpu: Cpu, m: Mem, r: RegisterFile) returns (k: nat)
    requires CpuOk(cpu) && (IsVsyscall(r.rip) || PlainBlock(cpu, m, r))
    ensures 1 <= k <= 64 && StepBlock(cpu, m, r) == Steps(cpu, m, r, k)
  {
    if IsVsyscall(r.rip) {
      k := 1;
    } else {
      var code := Translate(cpu.dec, m, r.rip, MAX_BLOCK_INSTRUCTIONS).value;
      TranslateFacts(cpu.dec, m, r.rip, MAX_BLOCK_INSTRUCTIONS, code);
      TranslatedIsFaithful(cpu, m, r, MAX_BLOCK_INSTRUCTIONS, code);
      k := FaithfulIsSteps(cpu, m, r, code, BlockRun(cpu.exec, code, m, r));
    }
  }

  /**
    When some instruction ahead does not decode, step_block fails before executing anything. That is
    what stepping does exactly when it is the first instruction that does not decode.
   */
  lemma FailedTranslationIff(cpu: Cpu, m: Mem, r: RegisterFile, k: nat)
    requires !IsVsyscall(r.rip) && Translate(cpu.dec, m, r.rip, MAX_BLOCK_INSTRUCTIONS).Err? && k > 0
    ensures StepBlock(cpu, m, r) == Run(m, r, Err(Translate(cpu.dec, m, r.rip, MAX_BLOCK_INSTRUCTIONS).error), [])
    ensures StepBlock(cpu, m, r) == Steps(cpu, m, r, k) <==> Decode(cpu.dec, m, r.rip).Err?
  {
    TranslateErrorKind(cpu.dec, m, r.rip, MAX_BLOCK_INSTRUCTIONS);
  }

  /** A failed translation reports a fetch fault or an invalid instruction, never a failed execution. */
  lemma {:induction false} TranslateErrorKind(dec: Decoder, m: Mem, ip: u64, n: nat)
    requires Translate(dec, m, ip, n).Err?
    ensures Translate(dec, m, ip, n).error.MemoryFault? || Translate(dec, m, ip, n).error.InvalidInstruction?
    decreases n
  {
    if Decode(dec, m, ip).Ok? { TranslateErrorKind(dec, m, Decode(dec, m, ip).value.Next(), n - 1); }
  }

  /** The same loop without the comparison of rip. */
  function PlainRun(exec: Exec, code: seq<Insn>, m: Mem, r: RegisterFile): Run
    decreases |code|
  {
    if code == [] then Run(m, r, Ok(Continue), [])
    else
      var one := One(exec, code[0], m, r);
      if one.result != Ok(Continue) || code[0].Kind() != Compute then one
      else Then(one, PlainRun(exec, code[1..], one.mem, one.regs))
  }

  /** Exactly the Compute kinds fall through, so rip always is where the next instruction was decoded. */
  lemma {:induction false} RipCheckNeverFires(exec: Exec, code: seq<Insn>, m: Mem, r: RegisterFile)
    requires ExecOk(exec) && Chained(code, r.rip) && EndOf(code) < U64
    ensures BlockRun(exec, code, m, r) == PlainRun(exec, code, m, r)
    decreases |code|
  {
    var e := exec(code[0], m, r);
    assert EffectOk(code[0], m, e);
    if |code| == 1 {
      assert BlockRun(exec, code[1..], e.mem, e.regs) == PlainRun(exec, code[1..], e.mem, e.regs);
    } else if e.result.Ok? {
      FirstWithin(code, r.rip);
      RipCheckNeverFires(exec, code[1..], e.mem, e.regs);
    }
  }

  // ------------------------------------------------------------ whole runs

  /** n calls of step_block, ending early at a trap or an error. */
  function RunBlocks(cpu: Cpu, m: Mem, r: RegisterFile, n: nat): Run
    requires n > 0
    decreases n
  {
    var b := StepBlock(cpu, m, r);
    if n == 1 || b.result != Ok(Continue) then b else Then(b, RunBlocks(cpu, b.mem, b.regs, n - 1))
  }

  lemma RunUnfold(cpu: Cpu, m: Mem, r: RegisterFile, n: nat)
    requires n > 0
    ensures var b := StepBlock(cpu, m, r);
            RunBlocks(cpu, m, r, n) == if n > 1 && b.result == Ok(Continue) then Then(b, RunBlocks(cpu, b.mem, b.regs, n - 1)) else b
  {
  }

  lemma RunFold(cpu: Cpu, m: Mem, r: RegisterFile, n: nat, b: Run, rest: Run)
    requires n > 1 && StepBlock(cpu, m, r) == b && b.result == Ok(Continue) && RunBlocks(cpu, b.mem, b.regs, n - 1) == rest
    ensures RunBlocks(cpu, m, r, n) == Then(b, rest)
  {
  }

  datatype RunOutcome = Stopped(trap: Trap) | Exited(code: int) | StepLimit

  /** What run makes of the last outcome: exit and exit_group end the program. */
  function OutcomeOf(result: Result<StepOutcome, CpuError>): Result<RunOutcome, CpuError> {
    match result
    case Err(e) => Err(e)
    case Ok(Continue) => Ok(StepLimit)
    case Ok(Halted(c)) => Ok(Exited(c))
    case Ok(Trapped(t)) => if t.number == 60 || t.number == 231 then Ok(Exited(Signed(t.args[0], 32))) else Ok(Stopped(t))
  }

  /** Every block the run enters is plain. */
  predicate PlainBlocks(cpu: Cpu, m: Mem, r: RegisterFile, n: nat)
    decreases n
  {
    n > 0 ==>
      && (IsVsyscall(r.rip) || PlainBlock(cpu, m, r))
      && (StepBlock(cpu, m, r).result == Ok(Continue) ==>
            PlainBlocks(cpu, StepBlock(cpu, m, r).mem, StepBlock(cpu, m, r).regs, n - 1))
  }

  lemma StepsUnfold(cpu: Cpu, m: Mem, r: RegisterFile, k: nat)
    requires k > 1
    ensures var one := Step(cpu, m, r);
            Steps(cpu, m, r, k) == if one.result == Ok(Continue) then Then(one, Steps(cpu, one.mem, one.regs, k - 1)) else one
  {
  }

  lemma ThenThen(a: Run, b: Run, c: Run)
    ensures Then(a, Then(b, c)) == Then(Then(a, b), c)
  {
    assert a.trace + (b.trace + c.trace) == a.trace + b.trace + c.trace;
  }

  /** k steps and then j more. */
  lemma {:induction false} StepsAppend(cpu: Cpu, m: Mem, r: RegisterFile, k: nat, a: Run, j: nat, b: Run)
    requires k > 0 && j > 0 && Steps(cpu, m, r, k) == a && a.result == Ok(Continue)
    requires Steps(cpu, a.mem, a.regs, j) == b
    ensures Steps(cpu, m, r, k + j) == Then(a, b)
    decreases k
  {
    var one := Step(cpu, m, r);
    if k == 1 {
      StepsFold(cpu, m, r, one, b, j);
    } else {
      var rest := Steps(cpu, one.mem, one.regs, k - 1);
      assert one.result == Ok(Continue) && a == Then(one, rest) by { StepsUnfold(cpu, m, r, k); }
      StepsAppend(cpu, one.mem, one.regs, k - 1, rest, j, b);
      StepsFold(cpu, m, r, one, Then(rest, b), k - 1 + j);
      ThenThen(one, rest, b);
    }
  }

  /** The first block of a run of plain blocks, and the run behind it. */
  lemma PlainUnfold(cpu: Cpu, m: Mem, r: RegisterFile, n: nat, b: Run)
    requires n > 0 && PlainBlocks(cpu, m, r, n) && StepBlock(cpu, m, r) == b
    ensures IsVsyscall(r.rip) || PlainBlock(cpu, m, r)
    ensures b.result == Ok(Continue) ==> PlainBlocks(cpu, b.mem, b.regs, n - 1)
  {
  }

  /** A block of k steps followed by blocks of j steps. */
  lemma BlockThenBlocks(cpu: Cpu, m: Mem, r: RegisterFile, n: nat, b: Run, k: nat, rest: Run, j: nat, sum: nat)
    requires n > 1 && StepBlock(cpu, m, r) == b && b.result == Ok(Continue) && RunBlocks(cpu, b.mem, b.regs, n - 1) == rest
    requires k > 0 && j > 0 && sum == k + j && Steps(cpu, m, r, k) == b && Steps(cpu, b.mem, b.regs, j) == rest
    ensures RunBlocks(cpu, m, r, n) == Steps(cpu, m, r, sum)
  {
    assert RunBlocks(cpu, m, r, n) == Then(b, rest) by { RunFold(cpu, m, r, n, b, rest); }
    assert Steps(cpu, m, r, sum) == Then(b, rest) by { StepsAppend(cpu, m, r, k, b, j, rest); }
  }

  lemma LastBlock(cpu: Cpu, m: Mem, r: RegisterFile, n: nat, b: Run, k: nat)
    requires n > 0 && StepBlock(cpu, m, r) == b && (n == 1 || b.result != Ok(Continue)) && k > 0 && Steps(cpu, m, r, k) == b
    ensures RunBlocks(cpu, m, r, n) == Steps(cpu, m, r, k)
  {
    RunUnfold(cpu, m, r, n);
  }

  /** A whole run of n blocks is a run of at most 64 n steps. */
  lemma {:induction false} RunBlocksRefinesSteps(cpu: Cpu, m: Mem, r: RegisterFile, n: nat) returns (k: nat)
    requires CpuOk(cpu) && n > 0 && PlainBlocks(cpu, m, r, n)
    ensures 1 <= k <= 64 * n && RunBlocks(cpu, m, r, n) == Steps(cpu, m, r, k)
    decreases n
  {
    var b := StepBlock(cpu, m, r);
    PlainUnfold(cpu, m, r, n, b);
    var first := StepBlockRefinesSteps(cpu, m, r);
    if n > 1 && b.result == Ok(Continue) {
      var rest := RunBlocks(cpu, b.mem, b.regs, n - 1);
      var more := RunBlocksRefinesSteps(cpu, b.mem, b.regs, n - 1);
      k := first + more;
      BlockThenBlocks(cpu, m, r, n, b, first, rest, more, k);
    } else {
      k := first;
      LastBlock(cpu, m, r, n, b, k);
    }
  }

  // ------------------------------------------------------------ no block halts

  /** handle_vsyscall fails or continues. */
  ghost predicate VsyscallContinues(cpu: Cpu) {
    forall m, r :: cpu.vsyscall(m, r).result.Ok? ==> cpu.vsyscall(m, r).result.value == Continue
  }

  lemma {:induction false} BlockNeverHalts(exec: Exec, code: seq<Insn>, m: Mem, r: RegisterFile)
    requires ExecOk(exec)
    ensures BlockRun(exec, code, m, r).result.Ok? ==> !BlockRun(exec, code, m, r).result.value.Halted?
    decreases |code|
  {
    if code != [] {
      var e := exec(code[0], m, r);
      assert EffectOk(code[0], m, e);
      BlockNeverHalts(exec, code[1..], e.mem, e.regs);
    }
  }

  /** Neither stepping nor running a block ever reports Halted. */
  lemma NeverHalts(cpu: Cpu, m: Mem, r: RegisterFile)
    requires CpuOk(cpu) && VsyscallContinues(cpu)
    ensures Step(cpu, m, r).result.Ok? ==> !Step(cpu, m, r).result.value.Halted?
    ensures StepBlock(cpu, m, r).result.Ok? ==> !StepBlock(cpu, m, r).result.value.Halted?
  {
    if !IsVsyscall(r.rip) {
      var i, t := Decode(cpu.dec, m, r.rip), Translate(cpu.dec, m, r.rip, MAX_BLOCK_INSTRUCTIONS);
      if i.Ok? { assert EffectOk(i.value, m, cpu.exec(i.value, m, r)); }
      if t.Ok? { BlockNeverHalts(cpu.exec, t.value, m, r); }
    }
  }
}
