/** The processes of the run loop are guests of the interpreter: what they do comes out of its blocks. */
module Guests {
  import opened Words
  import opened Regions
  import opened Registers
  import opened Machine
  import opened Processes
  import opened ProcessRuns
  import B = Blocks
  import E = Execution

  /** wait_requested_pid: the low half of a positive argument, or any child. */
  function Requested(arg: u64): Option<Pid> {
    if AsSigned(arg) <= 0 then None else Some(arg % 0x1_0000_0000)
  }

  /** What the run loop does after a block: nothing more, the Halted arm, or the system call by its number. */
  predicate Asks(o: StepOutcome, act: Action) {
    match o
    case Continue => act == Run
    case Halted(code) => act == DoHalt(code)
    case Trapped(t) =>
      if 56 <= t.number <= 58 then act.DoFork?
      else if t.number == 61 then act == DoWait(Requested(t.args[0]), t.args[2] % 2 == 1)
      else if t.number == 60 || t.number == 231 then act == DoExit(Signed(t.args[0], 32))
      else act == Run
  }

  /** Some guest state from which a block asks for this. */
  predicate AsksFrom(cpu: B.Cpu, m: Mem, r: RegisterFile, act: Action) {
    B.StepBlock(cpu, m, r).result.Ok? && Asks(B.StepBlock(cpu, m, r).result.value, act)
  }

  /** Every action of a run comes out of a block of the interpreter. */
  ghost predicate Emulated(cpu: B.Cpu, acts: seq<Action>) {
    forall i :: 0 <= i < |acts| ==> SomeBlockAsks(cpu, acts[i])
  }

  ghost predicate SomeBlockAsks(cpu: B.Cpu, act: Action) { exists m, r :: AsksFrom(cpu, m, r, act) }

  /** The interpreter with its own instructions, for any decoder and any handling of vsyscalls that continues. */
  ghost predicate IsInterpreter(cpu: B.Cpu) {
    cpu.exec == E.Execute && DecoderOk(cpu.dec) && B.VsyscallContinues(cpu)
  }

  lemma AskedIsNoHalt(cpu: B.Cpu, act: Action)
    requires B.CpuOk(cpu) && B.VsyscallContinues(cpu) && SomeBlockAsks(cpu, act)
    ensures !act.DoHalt?
  {
    var m, r :| AsksFrom(cpu, m, r, act);
    B.NeverHalts(cpu, m, r);
  }

  /** The Halted arm of the run loop is never taken. */
  lemma HaltedIsUnreachable(cpu: B.Cpu, acts: seq<Action>)
    requires IsInterpreter(cpu) && Emulated(cpu, acts)
    ensures NoHalt(acts, |acts|)
  {
    E.ExecuteIsOk();
    forall j | 0 <= j < |acts| ensures !acts[j].DoHalt? {
      AskedIsNoHalt(cpu, acts[j]);
    }
  }

  /**
    Deadlock freedom of the emulator: in every run of guests, the scheduler finds no thread exactly when
    every process has exited, and then the initial process's exit code is known.
   */
  lemma EmulatorDeadlockFree(cpu: B.Cpu, ss: seq<Sys>, acts: seq<Action>, obs: seq<Obs>, i: nat)
    requires IsInterpreter(cpu) && Emulated(cpu, acts) && IsRun(ss, acts, obs) && i < |ss|
    ensures NextThread(ss[i].table.records, ss[i].queue).0.None? <==> AllExited(ss[i].table)
    ensures NextThread(ss[i].table.records, ss[i].queue).0.None? ==> ss[i].exitCode.Some?
  {
    HaltedIsUnreachable(cpu, acts);
    DeadlockFree(ss, acts, obs, i);
  }
}
