# Verified model of RUXEON

RUXEON is a user-mode Linux emulator for x86-64 guests. This project models its state-carrying core in Dafny
and proves what that core is meant to guarantee.

| files | what they model |
|---|---|
| `Memory`, `FlatMemory`, `GuestMemory` | guest memory as sorted, disjoint regions with permissions; its meaning as a flat address map |
| `Processes`, `ProcessInvariants`, `ProcessSteps`, `ProcessRuns`, `ProcessHalts`, `ProcessLoop` | the process table, wait queues, the round-robin scheduler and the loop that drives them |
| `Registers`, `Arithmetic`, `StringOps`, `StringUnit` | registers and flags, multiply and divide, the string instructions |
| `Instructions`, `StringStores`, `Machine`, `Blocks`, `BlockCache`, `Interpreter`, `Execution`, `BlockExamples` | single stepping, block translation, the block cache and its invalidation |
| `Guests` | the processes of the run loop as guests of the interpreter |
| `StackImage`, `InitialStack`, `StackReader`, `StackRoundTrip`, `StackBuilder` | the initial stack of a program and its readers |
| `Segments`, `Heap` | ELF segment loading, brk and anonymous mmap |
| `Paths`, `PathResolver`, `Getdents` | guest paths, symbolic links, directory listing |
| `Words` | little-endian words |

Operations that update state in place are classes and methods with loops. Each is proved equal to a function of
the old state, and the theorems are about those functions. `dafny verify dfyconfig.toml` verifies everything.

## Properties that do not hold

Some statements one would expect of the code fail. Each has a concrete case and an exact condition.

- ADC and SBB lose the carry when the right operand is all ones and a carry comes in, and set OF wrongly when it is
  the largest signed value (`FoldLosesCarry`, `FoldLosesOverflow`, `AdcCarryExactIff`, `AdcOverflowExactIff`,
  `SbbBorrowExactIff`, `SbbOverflowExactIff`).
- Signed 64-bit division of -2^127 by -1 is not reported as a divide error: the quotient overflows the 128-bit division
  before its range is looked at (`IdivMeaning`; that is the only case).
- A block is not always a number of single steps. It fails as a whole if an instruction ahead does not decode
  (`InvalidAheadStopsBlock`, `FailedTranslationIff`), and it may run stale instructions after overwriting its own later
  bytes (`SelfPatchingBlockDiffers`; `StepBlockRefinesSteps` gives the condition under which it does not).
- The initial stack pointer is 16-byte aligned only when argc + envc is odd (`BuildCanMisalign`, `BuildAlignment`).

The Halted arm of the run loop does not refill the run queue, so a Halted outcome could leave a live parent unscheduled
(`HaltCanStrandALiveParent`, `HaltKeepsProgressIff`). Nothing in the repository produces that outcome, and the model
proves the arm unreachable (`NeverHalts`, `HaltedIsUnreachable`), so deadlock freedom holds without a condition
(`EmulatorDeadlockFree`).

## Model

| member | source | states |
|---|---|---|
| `ProcessRuns.DeadlockFree` | crates/ruxeon-cli/src/main.rs:247-250 | at every loop boundary reached without a Halted outcome, `next_thread` finds nothing exactly when every process in the table has exited, and then the initial process has its exit code recorded |
| `Guests.EmulatorDeadlockFree` | crates/ruxeon-cli/src/main.rs:247-273 | the same at every boundary of every run whose actions come out of the interpreter's blocks, without a condition on outcomes |
| `Guests.HaltedIsUnreachable` | crates/ruxeon-cli/src/main.rs:336-352 | no run of the interpreter's guests ever takes the Halted arm |
| `Blocks.NeverHalts` | crates/ruxeon-cpu/src/interpreter.rs:213-277 | neither `step` nor `step_block` reports Halted, for instructions that do not and a vsyscall handler that fails or continues (lines 934-976) |
| `ProcessRuns.WaitQueuesExact` | crates/ruxeon-linux/src/lib.rs:855-870 | at every boundary the wait queue of a process holds exactly its exited children that are still in the table, each once and with its status, and `children` lists exactly its children |
| `ProcessRuns.NoLostWakeup` | crates/ruxeon-linux/src/lib.rs:1456-1473 | a waiting process always has a child in the table that has not exited, with a larger pid |
| `ProcessRuns.ExitIsFinal` | crates/ruxeon-linux/src/lib.rs:1122-1135 | once a process has exited it is never scheduled again |
| `ProcessRuns.PidsNeverReused` | crates/ruxeon-linux/src/lib.rs:1087-1095 | pids handed out by fork strictly increase over a run and are never in use, although the forking record is out of the table at that moment |
| `ProcessRuns.PidCounterFits` | crates/ruxeon-cli/src/main.rs:21-21 | within the step limit the pid counter and every pid fit 32 bits |
| `ProcessRuns.ReapedOnce` | crates/ruxeon-linux/src/lib.rs:1057-1076 | wait4 returns each pid at most once in a run, and only that of an exited child of the caller |
| `ProcessRuns.BoundedWaiting` | crates/ruxeon-linux/src/lib.rs:1108-1135 | a runnable thread at index k of the run queue is chosen within k + 1 iterations, whatever the guests do meanwhile |
| `ProcessRuns.RunQueueDistinct` | crates/ruxeon-linux/src/lib.rs:1108-1120 | the run queue never holds a thread twice |
| `ProcessRuns.RunInv` | crates/ruxeon-cli/src/main.rs:247-441 | the table invariant holds at every boundary of every run, and every runnable thread is queued as long as no Halted outcome occurred |
| `ProcessRuns.LiveRunnable` | crates/ruxeon-linux/src/lib.rs:1456-1473 | from any live process the chain of waits climbs through ever larger pids to a runnable one |
| `ProcessInvariants.ForkStep` | crates/ruxeon-linux/src/lib.rs:944-999 | fork keeps the table invariant |
| `ProcessInvariants.ReapStep` | crates/ruxeon-linux/src/lib.rs:1057-1076 | collecting an exited child keeps the table invariant |
| `ProcessInvariants.ExitStep` | crates/ruxeon-linux/src/lib.rs:1001-1055 | exit keeps the table invariant |
| `ProcessInvariants.ScheduledIsRunnable` | crates/ruxeon-cli/src/main.rs:251-257 | the thread chosen is the main thread of a runnable record that has not exited, so neither early `continue` is taken |
| `ProcessInvariants.WaitBlocksOnLiveChild` | crates/ruxeon-linux/src/lib.rs:1456-1473 | when wait4 finds a child but nothing to collect, some child has not exited |
| `ProcessSteps.IterateInv` | crates/ruxeon-cli/src/main.rs:247-441 | one iteration keeps the invariant, and every runnable thread is queued afterwards unless the outcome was Halted |
| `ProcessSteps.FreshIsNext` | crates/ruxeon-linux/src/lib.rs:1087-1095 | `allocate_pid` never has to skip, even with the running record taken out |
| `ProcessHalts.HaltKeepsProgressIff` | crates/ruxeon-cli/src/main.rs:338-351 | the Halted arm does not refill the run queue; from any state that satisfies the invariant, a thread is found afterwards or everything has exited if and only if another process had a runnable thread in the run queue, or the waiting parent was still queued, or every other process had exited |
| `ProcessHalts.HaltCanStrandALiveParent` | crates/ruxeon-cli/src/main.rs:338-351 | were a Halted outcome to occur: a concrete run that ends with no thread found, a process still alive and no exit code |
| `ProcessLoop.ProcessTable.constructor` | crates/ruxeon-linux/src/lib.rs:880-922 | the table with only the initial process |
| `ProcessLoop.ProcessTable.Take` | crates/ruxeon-linux/src/lib.rs:936-938 | takes the record out, if there is one, and leaves the rest |
| `ProcessLoop.ProcessTable.InsertRecord` | crates/ruxeon-linux/src/lib.rs:940-942 | puts the record in and leaves the rest |
| `ProcessLoop.ProcessTable.AllocatePid` | crates/ruxeon-linux/src/lib.rs:1087-1095 | the first pid from the counter on that is not in the table; the counter ends behind it |
| `ProcessLoop.ProcessTable.ForkFromProcess` | crates/ruxeon-linux/src/lib.rs:944-999 | new table and child pid are those of `Fork`, which `ForkStep` and `PidsNeverReused` are about; includes the failing clones |
| `ProcessLoop.ProcessTable.Exit` | crates/ruxeon-linux/src/lib.rs:1001-1025 | new table is that of `ExitProcess`, which `ExitStep` is about |
| `ProcessLoop.ProcessTable.Record` | crates/ruxeon-linux/src/lib.rs:1027-1055 | new table is that of `RecordExit`: the parent is told at most once and woken |
| `ProcessLoop.ProcessTable.AlreadyQueued` | crates/ruxeon-linux/src/lib.rs:1027-1055 | tells whether the child is already in the parent's wait queue |
| `ProcessLoop.ProcessTable.Reap` | crates/ruxeon-linux/src/lib.rs:1057-1076 | new table and collected child are those of `Wait4`, which `ReapStep` and `ReapedOnce` are about |
| `ProcessLoop.ProcessTable.HasChildOf` | crates/ruxeon-linux/src/lib.rs:1078-1085 | true exactly when a child that the wait would accept is in the table |
| `ProcessLoop.ProcessTable.ChildrenOf` | crates/ruxeon-cli/src/main.rs:464-470 | exactly the records whose parent is pid, each once |
| `ProcessLoop.Scheduler.Enqueue` | crates/ruxeon-linux/src/lib.rs:1108-1112 | the queue gains exactly this thread, at the back, and only if it was not queued |
| `ProcessLoop.Scheduler.EnqueueProcess` | crates/ruxeon-linux/src/lib.rs:1114-1120 | the queue gains exactly the runnable threads of the record that were not queued, at the back |
| `ProcessLoop.Scheduler.Next` | crates/ruxeon-linux/src/lib.rs:1122-1135 | result and new queue are those of `NextThread`, which `BoundedWaiting` and `DeadlockFree` are about |
| `ProcessLoop.EnqueueRunnable` | crates/ruxeon-cli/src/main.rs:458-462 | the queue keeps its order and gains exactly the runnable threads of all records that were not queued, each once |
| `ProcessLoop.DispatchCall` | crates/ruxeon-linux/src/lib.rs:1456-1491 | table and outcome of the wait4 and fork arms (and of the exit arm) with the caller's record taken out |
| `ProcessLoop.Slice` | crates/ruxeon-cli/src/main.rs:388-440 | dispatch, then the put-back of the record that the outcome asks for |
| `ProcessLoop.Iteration` | crates/ruxeon-cli/src/main.rs:247-441 | from any state that satisfies the invariant: either no thread is found, or table, queue and exit code make one step of `Iterate` |
| `ProcessLoop.RunUntilExit` | crates/ruxeon-cli/src/main.rs:236-448 | the loop performs a run of at most 5,000,000 steps; it reports the limit exactly when all are used, stops earlier only when no thread is left to schedule, and then returns the recorded exit code or the lack of one; without Halted outcomes it then has a code and every process has exited |
| `GuestMemories.RunRefinesFlatMemory` | crates/ruxeon-core/src/memory.rs:140-338 | any sequence of operations keeps the region list valid and has exactly the effect of its successful operations on a flat address map |
| `GuestMemories.AttemptRefines` | crates/ruxeon-core/src/memory.rs:140-338 | a successful operation is its effect on the flat address map |
| `Regions.MapRegionFlat` | crates/ruxeon-core/src/memory.rs:140-166 | mapping succeeds exactly on a non-empty free range that ends inside 64 bits, and adds zero bytes with the given permissions exactly there |
| `Regions.ProtectFlat` | crates/ruxeon-core/src/memory.rs:181-240 | succeeds exactly on an empty range or one that a single region holds; changes the permissions of exactly that range and no byte |
| `Regions.UnmapRangeFlat` | crates/ruxeon-core/src/memory.rs:259-304 | succeeds exactly on a non-empty range that ends inside 64 bits, and removes exactly that range |
| `Regions.UnmapIsRemains` | crates/ruxeon-core/src/memory.rs:259-304 | the final sort moves nothing: the pieces that remain are already in order |
| `Regions.LoadBytesFlat` | crates/ruxeon-core/src/memory.rs:314-319 | succeeds exactly when one region holds the range; keeps the layout and replaces exactly those bytes |
| `Regions.ReadBytesFlat` | crates/ruxeon-core/src/memory.rs:321-326 | succeeds exactly when one readable region holds the range; returns its flat bytes |
| `Regions.FetchBytesFlat` | crates/ruxeon-core/src/memory.rs:328-333 | succeeds exactly when one executable region holds the range (its first byte, if the range is empty); every fetched byte is executable although one address is looked up |
| `GuestMemories.GuestMemory.PushRegion` | crates/ruxeon-core/src/memory.rs:107-110 | the insertion keeps the list sorted by base, as `Push` says |
| `GuestMemories.GuestMemory.FindIndex` | crates/ruxeon-core/src/memory.rs:112-116 | the first region that holds the whole range, or none |
| `GuestMemories.GuestMemory.Map` | crates/ruxeon-core/src/memory.rs:140-166 | keeps the list valid; success and new list are those of `MapRegion`, and an error changes nothing |
| `GuestMemories.GuestMemory.ProtectRange` | crates/ruxeon-core/src/memory.rs:181-240 | keeps the list valid; success and new list are those of `Protect`, and an error changes nothing |
| `GuestMemories.GuestMemory.Recut` | crates/ruxeon-core/src/memory.rs:181-240 | the region gives way to its pieces, of which the middle one has the new permissions |
| `GuestMemories.GuestMemory.Unmap` | crates/ruxeon-core/src/memory.rs:259-304 | keeps the list valid; success and new list are those of `UnmapRange`, and an error changes nothing |
| `GuestMemories.GuestMemory.Load` | crates/ruxeon-core/src/memory.rs:314-319 | keeps the list valid; success and new bytes are those of `LoadBytes`, and an error changes nothing |
| `GuestMemories.GuestMemory.Write` | crates/ruxeon-core/src/memory.rs:335-338 | keeps the list valid; success and new bytes are those of `WriteBytes`, and an error changes nothing |
| `GuestMemories.GuestMemory.Read` | crates/ruxeon-core/src/memory.rs:321-326 | the bytes or the error of `ReadBytes` |
| `Registers.CmpConditions` | crates/ruxeon-cpu/src/interpreter.rs:2105-2208 | after CMP at any width the condition codes b, ae, be, a, e, ne, l, ge, le, g are the unsigned and signed orders of the operands cut to the width, and o is signed overflow |
| `Registers.AddConditions` | crates/ruxeon-cpu/src/interpreter.rs:2171-2181 | carry and overflow tell exactly whether the unsigned and the signed sum leave the width |
| `Registers.SignExtendIsSigned` | crates/ruxeon-cpu/src/interpreter.rs:2389-2398 | sign extension gives the two's-complement value of the low bits |
| `Registers.ImmediateKeepsValue` | crates/ruxeon-cpu/src/interpreter.rs:1956-1965 | a sign-extended immediate keeps its signed value at every width from its own on |
| `Registers.AdcCarryExactIff` | crates/ruxeon-cpu/src/interpreter.rs:808-813 | the carry out of ADC is that of the three-term sum if and only if the right operand is not all ones with a carry coming in |
| `Registers.AdcOverflowExactIff` | crates/ruxeon-cpu/src/interpreter.rs:808-813 | OF after ADC is the signed overflow of the three-term sum if and only if the right operand is not the largest signed value with a carry coming in |
| `Registers.SbbBorrowExactIff` | crates/ruxeon-cpu/src/interpreter.rs:814-819 | the borrow out of SBB is that of the three-term difference if and only if the right operand is not all ones with a borrow coming in |
| `Registers.SbbOverflowExactIff` | crates/ruxeon-cpu/src/interpreter.rs:814-819 | OF after SBB is the signed overflow of the three-term difference if and only if the right operand is not the largest signed value with a borrow coming in |
| `Registers.FoldLosesCarry` | crates/ruxeon-cpu/src/interpreter.rs:808-819 | concrete 64-bit operands on which ADC loses its carry and SBB its borrow |
| `Registers.FoldLosesOverflow` | crates/ruxeon-cpu/src/interpreter.rs:808-819 | concrete 64-bit operands on which ADC and SBB set OF wrongly |
| `Registers.ReadAfterWrite` | crates/ruxeon-cpu/src/registers.rs:71-151 | a register part reads back what was written, cut to its width |
| `Arithmetic.MulThenDiv` | crates/ruxeon-cpu/src/interpreter.rs:1659-1815 | at every width, signed or not, multiplying by an operand that is not zero and dividing by it again never faults, restores the accumulator, leaves remainder 0 and touches only rax and rdx |
| `Arithmetic.DivMeaning` | crates/ruxeon-cpu/src/interpreter.rs:1713-1815 | unsigned division faults exactly on divisor 0 or a quotient beyond the width; otherwise the dividend is quotient * divisor + remainder with remainder < divisor |
| `Arithmetic.IdivMeaning` | crates/ruxeon-cpu/src/interpreter.rs:1713-1815 | signed division overflows the emulator's own 128-bit division exactly for dividend -2^127 by -1 at width 64; otherwise it faults exactly on divisor 0 or a quotient outside the signed range, and else the dividend is quotient * divisor + remainder with a remainder smaller than the divisor and of the dividend's sign |
| `Arithmetic.DoubleWordOfProduct` | crates/ruxeon-cpu/src/interpreter.rs:1659-1680 | the register pair that division reads holds the product modulo double width |
| `Arithmetic.SignedDividendOfProduct` | crates/ruxeon-cpu/src/interpreter.rs:1659-1815 | the signed dividend read from the pair is the signed product |
| `Arithmetic.OperandSurvivesMul` | crates/ruxeon-cpu/src/interpreter.rs:1659-1680 | a register operand outside rax and rdx is the same after the multiply |
| `StringOps.CopyIsFlatCopy` | crates/ruxeon-cpu/src/interpreter.rs:1508-1541 | a rep movs that completes is element-by-element copying in direction order on the flat space, overlapping or not |
| `StringOps.CopyDisjoint` | crates/ruxeon-cpu/src/interpreter.rs:1508-1541 | on disjoint ranges a rep movs that completes copies the old source bytes, upwards or downwards, and changes nothing else; its ranges never wrap |
| `StringOps.CopyInWords` | crates/ruxeon-cpu/src/interpreter.rs:1529-1534 | a copy that completes never wraps around 2^64, although the pointers may |
| `StringOps.CopyAdvances` | crates/ruxeon-cpu/src/interpreter.rs:1529-1536 | both pointers end where count steps lead |
| `StringOps.CopyKeepsLayout` | crates/ruxeon-cpu/src/interpreter.rs:1529-1534 | a copy, complete or faulting, keeps every region and permission |
| `StringOps.MovedIsWrapped` | crates/ruxeon-cpu/src/interpreter.rs:1532-1533 | count steps from an address are one wrapped addition of count * step |
| `StringOps.FillMeaning` | crates/ruxeon-cpu/src/interpreter.rs:1475-1506 | a rep stos that completes fills exactly its range with the pattern, upwards or downwards; the range never wraps |
| `StringOps.ScanMeaning` | crates/ruxeon-cpu/src/interpreter.rs:1562-1579 | the loop ends at the first element that ends the repeat, at the last element, or at the first unreadable one; the flags are those of the last comparison made |
| `StringUnit.StosRegisters` | crates/ruxeon-cpu/src/interpreter.rs:1501-1505 | after a success rdi has moved by count elements, rcx is 0 if repeated, nothing else changed |
| `StringUnit.MovsRegisters` | crates/ruxeon-cpu/src/interpreter.rs:1535-1540 | after a success rsi and rdi have moved by count elements, rcx is 0 if repeated, nothing else changed |
| `StringUnit.ScasRegisters` | crates/ruxeon-cpu/src/interpreter.rs:1581-1585 | after a success rdi and rcx have moved by exactly the elements compared |
| `StringUnit.CmpsRegisters` | crates/ruxeon-cpu/src/interpreter.rs:1628-1633 | after a success rsi, rdi and rcx have moved by exactly the elements compared |
| `StringStores.FillAccounted` | crates/ruxeon-cpu/src/interpreter.rs:1497-1500 | everything stos changes, complete or faulting, is accounted for by its element stores, each inside one region |
| `StringStores.CopyAccounted` | crates/ruxeon-cpu/src/interpreter.rs:1529-1534 | the same for movs |
| `StringUnit.Unit.Stos` | crates/ruxeon-cpu/src/interpreter.rs:1475-1506 | memory, registers and result of `StosSpec`, partial writes before a fault included |
| `StringUnit.Unit.Movs` | crates/ruxeon-cpu/src/interpreter.rs:1508-1541 | memory, registers and result of `MovsSpec`, partial copies before a fault included |
| `StringUnit.Unit.Scas` | crates/ruxeon-cpu/src/interpreter.rs:1543-1586 | registers and result of `ScasSpec`; memory is not touched |
| `StringUnit.Unit.Cmps` | crates/ruxeon-cpu/src/interpreter.rs:1588-1634 | registers and result of `CmpsSpec`; memory is not touched |
| `Blocks.StepBlockRefinesSteps` | crates/ruxeon-cpu/src/interpreter.rs:243-277 | a block that translates, does not overwrite its own later bytes and does not run into a vsyscall address ends with the registers, memory, outcome and trace of k calls of `step`, for some k from 1 to 64; a vsyscall address is one step |
| `Blocks.RunBlocksRefinesSteps` | crates/ruxeon-cpu/src/interpreter.rs:279-295 | n blocks of that kind are between 1 and 64 n steps |
| `Blocks.RipCheckNeverFires` | crates/ruxeon-cpu/src/interpreter.rs:249-252 | inside a translated block the rip comparison never ends the loop |
| `Blocks.FailedTranslationIff` | crates/ruxeon-cpu/src/interpreter.rs:247-248 | when translation fails, `step_block` changes nothing and agrees with stepping if and only if the first instruction already fails to decode |
| `Blocks.TranslateErrorKind` | crates/ruxeon-cpu/src/interpreter.rs:316-341 | translation fails only with a fetch fault or an invalid instruction |
| `BlockExamples.InterpreterRefinesSteps` | crates/ruxeon-cpu/src/interpreter.rs:243-295 | the refinement for the modelled instruction set, multiply, divide and string instructions included, with any decoder that depends on an instruction's own bytes only |
| `BlockExamples.SelfPatchingBlockDiffers` | crates/ruxeon-cpu/src/interpreter.rs:243-277 | with any decoder that reads nop, syscall, a byte store and the byte 06 as x86-64 does: a block that stores 06 over its own nop runs the stale nop and equals no number of steps |
| `BlockExamples.InvalidAheadStopsBlock` | crates/ruxeon-cpu/src/interpreter.rs:316-341 | with any such decoder: the invalid byte 06 behind a nop stops the whole block before the nop, which no number of steps does |
| `BlockExamples.FourEncodingsReadX86` | crates/ruxeon-cpu/src/interpreter.rs:297-301 | there are such decoders |
| `Machine.TranslateFacts` | crates/ruxeon-cpu/src/interpreter.rs:316-341 | a translation has 1 to max instructions, each starting where the one before it ends |
| `Machine.TranslateAgrees` | crates/ruxeon-cpu/src/interpreter.rs:316-341 | a block whose own bytes are the same in two memories of one layout translates alike, although the fetch window of its last instruction is wider |
| `Machine.TranslateAfterStores` | crates/ruxeon-cpu/src/interpreter.rs:316-341 | stores that miss the bytes of a block do not change its translation |
| `Machine.BlockExecutable` | crates/ruxeon-cpu/src/interpreter.rs:297-341 | every byte of a translated block is executable |
| `Machine.TranslateKept` | crates/ruxeon-cpu/src/interpreter.rs:316-341 | a change that leaves executable bytes and the layout alone changes no translation |
| `Machine.BlockApart` | crates/ruxeon-cpu/src/interpreter.rs:1999-2007 | a store into a region that is not executable misses every translated block, so skipping the invalidation is right |
| `BlockCache.CoherentAfterEffect` | crates/ruxeon-cpu/src/interpreter.rs:1995-2008 | if every cached block equals its fresh translation, it still does after any instruction, with any number of stores, whose stores outside `write_operand` stay off executable regions |
| `BlockCache.CoherentKept` | crates/ruxeon-cpu/src/interpreter.rs:934-976 | it still does after a change that leaves executable bytes alone, as that of a vsyscall to data memory |
| `BlockCache.SettleKeeps` | crates/ruxeon-cpu/src/interpreter.rs:116-125 | a block still cached after the invalidations of an instruction is the one that was, and none of them overlapped it |
| `BlockCache.SettlingCoherent` | crates/ruxeon-cpu/src/interpreter.rs:249-276 | the same over a whole block |
| `BlockCache.SettlingRuns` | crates/ruxeon-cpu/src/interpreter.rs:249-276 | the cache has no influence on what a block does |
| `BlockCache.DropKeeps` | crates/ruxeon-cpu/src/interpreter.rs:116-125 | both maps keep the same keys, and exactly the blocks that do not overlap the range |
| `Interpreters.Interpreter.Get` | crates/ruxeon-ir/src/lib.rs:86-97 | returns the cached block and counts one hit or one miss accordingly |
| `Interpreters.Interpreter.InvalidateRange` | crates/ruxeon-ir/src/lib.rs:110-120 | drops the overlapping blocks from both maps and counts them |
| `Interpreters.Interpreter.ClearCache` | crates/ruxeon-cli/src/main.rs:379-382 | empties both maps and counts every block as invalidated; the cache is then coherent with any memory, so also with one that a system call has remapped |
| `Interpreters.Interpreter.InvalidateStores` | crates/ruxeon-cpu/src/interpreter.rs:1999-2007 | drops exactly the blocks that operand stores into executable memory overlap |
| `Interpreters.Interpreter.CachedBlock` | crates/ruxeon-cpu/src/interpreter.rs:303-314 | with a coherent cache the result is the fresh translation and the cache stays coherent; a translation is counted exactly on a miss that translates |
| `Interpreters.TranslateBlock` | crates/ruxeon-cpu/src/interpreter.rs:316-341 | the decoding loop computes the translation that `TranslateFacts` and `TranslateAfterStore` are about |
| `Interpreters.Interpreter.Execute` | crates/ruxeon-cpu/src/interpreter.rs:1983-2017 | an instruction changes memory and registers as modelled, and the cache exactly by the invalidations of its operand stores |
| `Interpreters.Interpreter.Step` | crates/ruxeon-cpu/src/interpreter.rs:213-241 | state, outcome and trace of one step |
| `Interpreters.Interpreter.RunCode` | crates/ruxeon-cpu/src/interpreter.rs:249-276 | the loop over a block's instructions: state, outcome, trace and cache |
| `Interpreters.Interpreter.StepBlock` | crates/ruxeon-cpu/src/interpreter.rs:243-277 | with a coherent cache: state, outcome and trace of running the fresh translation; the cache stays coherent when the stores of the block outside `write_operand`, or those of the vsyscall, stay off executable regions |
| `Interpreters.Interpreter.Run` | crates/ruxeon-cpu/src/interpreter.rs:279-295 | refuses 0 blocks; otherwise state, trace and outcome of at most max blocks, with exit system calls turned into an exit code and the cache coherent at the end |
| `Execution.ExecuteIsOk` | crates/ruxeon-cpu/src/interpreter.rs:343-772 | every store of a modelled instruction lies in one region, nothing else changes in memory, none halts, and each of kind Compute falls through |
| `Execution.PushThenPop` | crates/ruxeon-cpu/src/interpreter.rs:2093-2103 | a pop after a push, if both succeed, gives the pushed word and restores rsp |
| `Execution.CallThenRet` | crates/ruxeon-cpu/src/interpreter.rs:695-713 | a plain return after a call, if both succeed, goes on behind the call with all other registers as before it |
| `InitialStack.BuildFits` | crates/ruxeon-elf/src/loader.rs:340-442 | building succeeds exactly when strings and words fit above the floor, and leaves exactly the image: strings on top, words below, all else unchanged |
| `StackRoundTrip.BuildArgc` | crates/ruxeon-elf/src/loader.rs:436-436 | the word at the final stack pointer is argc |
| `StackRoundTrip.BuildArgv` | crates/ruxeon-linux/src/lib.rs:2470-2483 | `read_string_vector` behind argc gives argv back exactly when it has fewer than 4096 strings, each valid text without NUL and shorter than 4096 bytes |
| `StackRoundTrip.BuildEnvp` | crates/ruxeon-linux/src/lib.rs:2470-2483 | `read_string_vector` behind argv's null gives envp back under exactly the same condition |
| `StackRoundTrip.BuildAuxiliary` | crates/ruxeon-elf/src/loader.rs:365-427 | the fourteen auxiliary pairs stand behind envp's null in order and end with AT_NULL |
| `StackRoundTrip.BuildRandom` | crates/ruxeon-elf/src/loader.rs:349-349 | AT_RANDOM leads to the sixteen bytes |
| `StackRoundTrip.BuildName` | crates/ruxeon-elf/src/loader.rs:347-348 | AT_EXECFN leads to a string that reads back as the program name exactly when that is valid text without NUL and short enough |
| `StackRoundTrip.BuildAlignment` | crates/ruxeon-elf/src/loader.rs:340-442 | the stack pointer that build returns is a multiple of 8, and of 16 exactly when argc + envc is odd; section 3.4.1 of the System V AMD64 ABI asks for 16 always |
| `StackRoundTrip.BuildCanMisalign` | crates/ruxeon-elf/src/loader.rs:340-442 | a concrete build with one argument and one variable that succeeds and leaves the stack pointer at 8 modulo 16 |
| `StackImage.PushListMeaning` | crates/ruxeon-elf/src/loader.rs:450-461 | pushing chunks succeeds exactly when they stay above the floor, and leaves them adjacent in order |
| `StackBuilder.Builder.Push` | crates/ruxeon-elf/src/loader.rs:450-461 | one push; an error changes no byte |
| `StackBuilder.Builder.PushStrings` | crates/ruxeon-elf/src/loader.rs:347-361 | the string area and the addresses of its strings |
| `StackBuilder.Builder.PushWords` | crates/ruxeon-elf/src/loader.rs:363-441 | the aligned words below the strings, over the addresses that the strings got |
| `StackBuilder.Builder.Build` | crates/ruxeon-elf/src/loader.rs:340-442 | result, memory and stack pointer are those of `Build`, which the lemmas above are about |
| `StackReader.CStringBack` | crates/ruxeon-linux/src/lib.rs:2458-2468 | a stored string reads back as itself exactly when it is valid text without NUL and shorter than 4096 bytes |
| `StackReader.VectorBack` | crates/ruxeon-linux/src/lib.rs:2470-2483 | a null-terminated vector reads back exactly when all its strings do and there are fewer than 4096 |
| `StackReader.CStringLoop` | crates/ruxeon-linux/src/lib.rs:2458-2468 | the loop computes the function that `CStringBack` is about |
| `StackReader.VectorLoop` | crates/ruxeon-linux/src/lib.rs:2470-2483 | the loop computes the function that `VectorBack` is about |
| `Segments.LoadSegmentIff` | crates/ruxeon-elf/src/loader.rs:244-278 | an accepted segment loads exactly when its sums do not overflow and its page range is not empty and free |
| `Segments.MapWithDataFlat` | crates/ruxeon-core/src/memory.rs:168-179 | mapping with data succeeds exactly on a free non-empty range and leaves the data over zeros |
| `Segments.CopyFits` | crates/ruxeon-core/src/memory.rs:168-179 | the copy into the fresh mapping never fails |
| `Segments.LoadAllIff` | crates/ruxeon-elf/src/loader.rs:145-158 | all segments load exactly when their pages are not empty, free and disjoint from each other |
| `Segments.HeaderLoaded` | crates/ruxeon-elf/src/loader.rs:145-158 | after a success every page of every load header holds its file bytes at vaddr + bias, zeros elsewhere, and its permissions, whatever came after it |
| `Segments.UntouchedAt` | crates/ruxeon-elf/src/loader.rs:145-158 | addresses outside all segments are unchanged |
| `Segments.LoadHeader` | crates/ruxeon-elf/src/loader.rs:244-278 | the additions in their order, the file slice, the mapping and the copy give what `LoadSegment` does with the header's plan; unchecked sums that overflow are reported as such |
| `Segments.LoadHeaders` | crates/ruxeon-elf/src/loader.rs:145-158 | the loop over all headers, load or not, of the program or (lines 171-183) of its interpreter, computes what `LoadAllIff` and `HeaderLoaded` are about |
| `Segments.LoadImage` | crates/ruxeon-elf/src/loader.rs:145-162 | the same from empty memory; a file without load headers is refused |
| `Heap.HeapWindow` | crates/ruxeon-linux/src/lib.rs:2078-2105 | over any sequence of brk calls and stores, exactly [base, align_up(brk)) is the heap, readable and writable, and no other mapping has changed |
| `Heap.BrkCell` | crates/ruxeon-linux/src/lib.rs:2078-2105 | growth adds zero pages that were free, shrinking removes pages, no other address changes; a failed call changes nothing |
| `Heap.BrkResult` | crates/ruxeon-linux/src/lib.rs:2078-2105 | a call that succeeds returns the break: the old one for 0 or a request below the base, else the requested one |
| `Heap.BrkGrowsIff` | crates/ruxeon-linux/src/lib.rs:2092-2102 | growing succeeds exactly when rounding the new break does not overflow and the pages it needs are free |
| `Heap.MmapCell` | crates/ruxeon-linux/src/lib.rs:2107-2161 | a successful anonymous mmap leaves zeros with the requested permissions on exactly [at, at + align_up(len)); it replaces mappings only if fixed |
| `Heap.MmapFails` | crates/ruxeon-linux/src/lib.rs:2107-2161 | a failed anonymous mmap leaves memory alone |
| `Heap.MmapIff` | crates/ruxeon-linux/src/lib.rs:2117-2156 | an anonymous request, whatever its length and offset, succeeds exactly when it is well-formed, no unchecked sum overflows, and the chosen range ends inside 64 bits and, unless fixed, is free |
| `Heap.Process.constructor` | crates/ruxeon-linux/src/lib.rs:685-687 | the initial bases |
| `Heap.Process.SetBrk` | crates/ruxeon-linux/src/lib.rs:2078-2105 | memory, break and result of `Brk`, which `BrkCell` is about |
| `Heap.Process.Map` | crates/ruxeon-linux/src/lib.rs:2107-2161 | memory, next address and result of `Mmap`, which `MmapCell` is about |
| `PathResolver.ResolveFinal` | crates/ruxeon-fs/src/lib.rs:73-129 | whatever the links are, a result is absolute, without empty, "." or ".." names, and has no link among its prefixes up to the first missing one |
| `PathResolver.ResolveTwice` | crates/ruxeon-fs/src/lib.rs:73-129 | a result resolves to itself from any directory |
| `PathResolver.FinalIsFixed` | crates/ruxeon-fs/src/lib.rs:73-129 | a normal path without links resolves to itself |
| `PathResolver.SelfLinkRefused` | crates/ruxeon-fs/src/lib.rs:94-97 | a link to its own name is refused, with exactly forty expansions done |
| `PathResolver.ResolveFrom` | crates/ruxeon-fs/src/lib.rs:77-128 | never more than forty links are expanded |
| `PathResolver.ScanSettles` | crates/ruxeon-fs/src/lib.rs:83-123 | a pass changes nothing exactly when no prefix up to the first missing one is a link |
| `PathResolver.PassOver` | crates/ruxeon-fs/src/lib.rs:78-123 | one pass finds the first link or settles with all components |
| `PathResolver.ExpandLink` | crates/ruxeon-fs/src/lib.rs:99-110 | the link's target as a guest path, then what followed the link |
| `Paths.FromPartsNormal` | crates/ruxeon-fs/src/lib.rs:212-252 | joining to a normal directory only makes normal paths |
| `Paths.JoinNormal` | crates/ruxeon-fs/src/lib.rs:200-252 | a normal path joined to any directory is itself |
| `Paths.ComponentsRender` | crates/ruxeon-fs/src/lib.rs:208-210 | a rendered path has the names it was made of |
| `PathResolver.Normalise` | crates/ruxeon-fs/src/lib.rs:212-252 | the loop computes the function that `FromPartsNormal` is about |
| `PathResolver.ResolveLoop` | crates/ruxeon-fs/src/lib.rs:77-128 | the loop of passes computes the function that `ScanSettles` and `ResolveFinal` are about |
| `PathResolver.ResolveGuestPath` | crates/ruxeon-fs/src/lib.rs:73-129 | the first join and the loop compute the function that `ResolveFinal` is about |
| `Getdents.ListsEverything` | crates/ruxeon-linux/src/lib.rs:1902-1926 | with buffers that each take any one record, as many calls as there are entries write bytes that decode to exactly the entries, each once and in order, and the next call writes nothing |
| `Getdents.DecodeRecords` | crates/ruxeon-linux/src/lib.rs:1911-1923 | decoding the bytes of a call gives exactly its entries, in order |
| `Getdents.CallsContinue` | crates/ruxeon-linux/src/lib.rs:1902-1926 | no call repeats or skips an entry |
| `Getdents.LengthsSum` | crates/ruxeon-linux/src/lib.rs:1907-1922 | the record lengths add up to the bytes written |
| `Getdents.RecLen` | crates/ruxeon-linux/src/lib.rs:1907-1907 | the smallest multiple of eight that holds header, name and NUL |
| `Getdents.StopFits` | crates/ruxeon-linux/src/lib.rs:1904-1910 | a call stays inside the buffer and stops only at the end or before a record that does not fit |
| `Getdents.DirectoryFd.PutRecord` | crates/ruxeon-linux/src/lib.rs:1911-1921 | the field writes leave exactly the record at its place |
| `Getdents.DirectoryFd.Write` | crates/ruxeon-linux/src/lib.rs:1902-1926 | whole records while they fit, the cursor behind them, the rest of the buffer untouched |

## Left out

- Most mnemonics: shifts, rotates, logic, bit tests, two-operand imul, SSE, cpuid and rdtsc. The interpreter model covers mov, lea, add, sub, adc, sbb, cmp, cmov, mul, imul, div, idiv, push, pop, leave, nop, stos, movs, scas, cmps, jmp, jcc, call, ret and syscall.
- The x86 decoder and formatter are a parameter; the block results assume that decoding depends only on the bytes of the instruction itself.
- The vsyscall handler is a parameter, and `PlainBlock` excludes blocks that run into a vsyscall address.
- StepBlockRefinesSteps: the condition on self-modification is sufficient only; a block that overwrites its own later bytes may still happen to agree with stepping.
- CoherentAfterEffect: stores outside `write_operand` (push, call, stos, movs) into executable memory are excluded, because the code does not invalidate for them.
- Run: excludes runs with such stores, in a block or a vsyscall, for the same reason.
- Execute: the effect of an instruction is a function of memory and registers; the method adds the invalidations.
- One cache per process and its hand-over between slices are not modelled.
- Hit, miss, translation and invalidation counters do not overflow in the model.
- HostOverflow marks sums and quotients that the code does not check: a build with overflow checks stops there; what a build that wraps around does afterwards is not modelled.
- Reads and writes across two adjacent regions fail in the code; the flat results speak of operations that succeed.
- Region names, and the typed readers and writers built on the byte operations.
- PushThenPop: assumes that the pop succeeds, which needs a readable region.
- Guest instruction errors and execve failures that end the emulator, execve itself, signals, and more than one thread per process.
- Emulated: ties each action of a run to some guest state; memory, registers and the result value of wait4 are not part of the process table model.
- Host files, virtual files, clocks, terminals, networking and all other system calls.
- BuildFits: assumes that one readable and writable region spans floor to top, which the loader maps beforehand.
- The word-pushing loops of `build` are one loop over the same words in the same order; UTF-8 validity is a parameter.
- The ELF header parser beyond load segment validation, relocation, and page sizes other than 4096.
- MmapCell: anonymous mappings only; file backing is left out.
- ResolveFinal: link targets that a host prefix turns into guest paths are assumed to give proper names; other host path rules are a parameter.
- ResolveTwice: assumes that no rendered guest path looks like a host prefix.
- DecodeRecords: assumes names without NUL and records shorter than 65536 bytes, because the length field has 16 bits.
