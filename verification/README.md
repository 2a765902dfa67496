# Teaching models of an operating-systems course, verified

Six small machines from the code of "Operating Systems Foundations", modelled in Dafny 4.11, with
theorems about whole runs of each. `dafny verify dfyconfig.toml` checks everything.

| file | component |
|---|---|
| `Cache.dfy` | write-back cache of 16-word lines over a flat memory |
| `StopAndWait.dfy` | UDP client and server with acknowledgements, and the network between them |
| `Dispatch.dfy` | compiler from goto tasks to one function per line and a dispatch loop |
| `TaskSwitch.dfy` | hoisting of variables, context save and restore, interleaving of compiled tasks |
| `TimeSlice.dfy` | two-task context switch through a stack and two control blocks |
| `Machine.dfy` | assembler, instruction words and fetch-decode-execute cycle |
| `Fibonacci.dfy` | the Fibonacci program on that machine, and its high-level twin |
| `SelectServer.dfy` | descriptor bookkeeping of the select() server |
| `Timer.dfy` | periodic timer |
| `Division.dfy` | facts about division for the timer and the shifts |
| `Options.dfy` | the option type that they share |

What the source updates in place is a class, an array or a loop here; each such method is proved
against a function or a view of the state, and the theorems about runs are lemmas about those. The
protocol of client, server and network is a state machine over its steps.

## Where the code falls short of its intent

**Cache.** `cache_model.py` is a sketch that does not run. The model makes these repairs: the stack is
built before it is used (line 7); `location` is `loc` (21); an eviction pushes on the stack itself
(26) and is kept (47); the evicted line leaves `address_to_cache_loc` (41-46); membership is tested on
the line number `address >> 4` (64, 102, 115); a write miss stores its data after the fill
(102-103); `memory` is at hand wherever it is returned (82); a read evicts only on a miss in a full
cache (112), with the stack pointer that it names (117) and no data (118). Kept as written: stack
entry 0 is never used, so one location stays free (31), and a write evicts from a full cache even on a
hit (97-98). `WriteDataDroppingMisses` keeps the write miss as it is and says exactly when that write
takes effect.

**Stop and wait.** The client takes any acknowledgement (line 71), although the frame carries the
sequence number and the server echoes it. `Config.check` turns the comparison on: a client that checks
ignores other acknowledgements and goes on waiting. `CoveredExactlyWhenSound` says when each client is
safe. `htonl` keeps 32 bits of the number, so even a checking client can be misled after 2^32 lines.
Message numbers `id` in frames are history and are not on the wire.

**Per-line compiler.** A labelled statement gets `pc++` twice (222 and 234). The parameter `doubled`
is true for the script as written and false for one increment per line; `LockstepExactly` and
`AgreesEverywhereExactly` say exactly when the script as written is right.

**Time slice.** Pops read before they decrement (18-20, 28-29), so the first reads the word above the
stack window. `decrementFirst` is false for the code as written.

**Machine.** The executor takes the target of B and BL from the second operand
(`abstract_system_cpu_execute.py:33-41`), which the decoder leaves empty
(`abstract_system_cpu_decode.py:10-16`): both fail, and the model says so. ADR loses the upper part of
its target, and POP does not undo PUSH; `AdrKeepsShortTargetsOnly` and `PopUndoesPushExactly` say when
they work. The branch of WFI that would suspend the processor is never reached (lines 52-55).

## Model

| member | source | states |
|---|---|---|
| CacheModel.Cache.Run | Code/Ch1-memory-centric-system-model/cache-model/cache_model.py:93-123 | any mix of reads and writes gives the answers of a flat memory and leaves its contents |
| CacheModel.ReadsReturnLastWrite | Code/Ch1-memory-centric-system-model/cache-model/cache_model.py:93-123 | a read of flat memory, and so of the cache, returns the last earlier write to its address, else the initial word |
| CacheModel.Cache.WriteData | Code/Ch1-memory-centric-system-model/cache-model/cache_model.py:93-108 | a write changes what a reader sees at exactly its address; a full cache first writes back and drops the last used line, even on a hit; the written line is resident and last used |
| CacheModel.Cache.ReadData | Code/Ch1-memory-centric-system-model/cache-model/cache_model.py:110-123 | a read returns the visible word and changes none; only a miss on a full cache writes back and drops a line; a hit changes nothing |
| CacheModel.Cache.WriteDataDroppingMisses | Code/Ch1-memory-centric-system-model/cache-model/cache_model.py:97-107 | without the repair of the write miss, the write takes effect exactly when its line is resident once a full cache has evicted, or the word already holds the data |
| CacheModel.LostWrite | Code/Ch1-memory-centric-system-model/cache-model/cache_model.py:102-103 | on a fresh cache the unrepaired write is never read back |
| CacheModel.Cache.constructor | Code/Ch1-memory-centric-system-model/cache-model/cache_model.py:2-13 | a new cache is empty, satisfies the cache invariant and shows the memory as it is |
| CacheModel.Cache.WriteToMemOnEvict | Code/Ch1-memory-centric-system-model/cache-model/cache_model.py:37-49 | the 16-word write-back of the last used line of a full cache, which then has a free location and shows the same contents |
| CacheModel.Cache.ReadFromMemOnMiss | Code/Ch1-memory-centric-system-model/cache-model/cache_model.py:53-69 | the 16-word fill of a free location: one more resident line, last used, same visible contents |
| CacheModel.Cache.UpdateEntry | Code/Ch1-memory-centric-system-model/cache-model/cache_model.py:71-82 | a hit changes the visible word at one address only and makes its line the last used |
| CacheModel.Cache.FetchEntry | Code/Ch1-memory-centric-system-model/cache-model/cache_model.py:85-91 | the word of a resident line is the visible word |
| CacheModel.EvictionInvisible | Code/Ch1-memory-centric-system-model/cache-model/cache_model.py:40-46 | writing a line back and dropping it leaves the combined view of cache and memory unchanged at every address |
| CacheModel.FillInvisible | Code/Ch1-memory-centric-system-model/cache-model/cache_model.py:60-65 | copying a line in leaves the combined view unchanged at every address |
| CacheModel.UpdateVisibleAtOneAddress | Code/Ch1-memory-centric-system-model/cache-model/cache_model.py:74-77 | updating a resident word changes the combined view at exactly one address |
| CacheModel.PushKeepsPartition | Code/Ch1-memory-centric-system-model/cache-model/cache_model.py:23-28 | after an eviction the maps are still inverse on resident lines and occupied and free locations still partition all locations without repeats |
| CacheModel.PopKeepsPartition | Code/Ch1-memory-centric-system-model/cache-model/cache_model.py:16-21 | the same after taking a free location for a new line, as long as one free location is left over (line 31) |
| StopAndWait.CoveredExactlyWhenSound | Code/Ch10-networking/UDPACKclient.c:54-72 | in every run all messages the client has moved past are printed, exactly when there are at most 2^32 lines (with the check) or 1 line (as written), or timeouts are timely on a network that does not duplicate |
| StopAndWait.CheckingClientDeliversInOrder | Code/Ch10-networking/UDPACKclient.c:54-72 | with the check, on a network that loses, duplicates, reorders and delays: first occurrences by sequence number in the output are a prefix of the lines in order, covering all that the client moved past |
| StopAndWait.FirstsAreFirstOccurrences | Code/Ch10-networking/UDPACKserver.c:45-60 | the first occurrences meant in the row above are, in order, the printed frames whose number has not been printed before |
| StopAndWait.TimelyClientNeedsNoCheck | Code/Ch10-networking/UDPACKclient.c:59-71 | as written, with timely timeouts and no duplication: at most one frame in flight, for the current message, and every completed message printed |
| StopAndWait.StaleAckTakenForAnotherLine | Code/Ch10-networking/UDPACKclient.c:64-71 | otherwise some run takes a stale acknowledgement for a line that was never printed |
| StopAndWait.ReachableInvariant | Code/Ch10-networking/UDPACKclient.c:54-72 | what every step keeps: genuine frames, acknowledgements of printed frames only, delivery of a prefix in order, and at most one frame in flight where timeouts are timely |
| StopAndWait.StepKeepsInvariant | Code/Ch10-networking/UDPACKclient.c:54-72 | each single step of client, server and network keeps that invariant |
| StopAndWait.FramesAreConserved | Code/Ch10-networking/UDPACKclient.c:54-72 | without duplication: copies sent are printed, in flight or lost; each printed frame is acknowledged once; acknowledgements are taken, in flight or lost; as written, completed messages are the acknowledgements taken |
| StopAndWait.CopiesAreBounded | Code/Ch10-networking/UDPACKclient.c:58-70 | no message is sent more than 1 + NRETRIES times, on any network |
| StopAndWait.CopiesAreExact | Code/Ch10-networking/UDPACKclient.c:58-70 | in every run on any network, a client with r passes of its retry loop left has sent 11 - r copies of its message, one that gave up 11, and a completed message went out at most 10 times |
| StopAndWait.PrintedFramesAreInputLines | Code/Ch10-networking/UDPACKserver.c:45-60 | every printed frame with number k carries input line k, in every run |
| StopAndWait.NetworkIsFree | Code/Ch10-networking/UDPACKclient.c:58-71 | the network may deliver any frame in flight, lose it, or copy it if it duplicates, and nothing else changes; timeouts that need not be timely come at any time |
| StopAndWait.ClientMain | Code/Ch10-networking/UDPACKclient.c:54-72 | for all outcomes of select, the nested send, retry and receive loops do what the client of the state machine does; they send the lines in order under their numbers modulo 2^32, and give up after 11 copies of one |
| StopAndWait.ClientSendsAndRetries | Code/Ch10-networking/UDPACKclient.c:54-72 | the same of the client of the state machine, whatever select gives |
| StopAndWait.ClientFollowsItsProgram | Code/Ch10-networking/UDPACKclient.c:54-72 | in every run of client, server and network the client as written has sent and reached what its loops send and reach |
| StopAndWait.ServerMain | Code/Ch10-networking/UDPACKserver.c:45-60 | every frame received is printed and acknowledged with its own sequence number, in order |
| Dispatch.LockstepExactly | Code/Ch3-Hardware-Architecture/transform_to_one_sub_per_line.pl:204-239 | the generated dispatch loop and the goto program go in lockstep (same store, same line, one stops exactly when the other does) as long as no line with two increments is executed, and no longer; with one increment per line always |
| Dispatch.AgreesEverywhereExactly | Code/Ch3-Hardware-Architecture/transform_to_one_sub_per_line.pl:217-237 | as written, every generated function does what its line does, for every store, exactly when only goto lines are labelled |
| Dispatch.StepsAgreeExactly | Code/Ch3-Hardware-Architecture/transform_to_one_sub_per_line.pl:217-237 | one call agrees with one line exactly when the line is not given two increments |
| Dispatch.LabelsOnGotosSuffice | Code/Ch3-Hardware-Architecture/transform_to_one_sub_per_line.pl:220-236 | as written, a task with labels on goto lines only runs in lockstep for any number of steps |
| Dispatch.LabelledLastLineCrashes | Code/Ch3-Hardware-Architecture/transform_to_one_sub_per_line.pl:220-234 | as written, when a run reaches a labelled statement on the last line of any task (before any other line with two increments), the task halts but the loop calls past its table |
| Dispatch.OneLabelledLineCrashes | Code/Ch3-Hardware-Architecture/transform_to_one_sub_per_line.pl:220-234 | such a task: one labelled statement |
| Dispatch.EmptyTaskCrashes | Code/Ch3-Hardware-Architecture/transform_to_one_sub_per_line.pl:271-275 | a task without lines halts, but its dispatch loop calls a function that is not there |
| Dispatch.CallsStayInTable | Code/Ch3-Hardware-Architecture/transform_to_one_sub_per_line.pl:265-275 | with one increment per line, only ids of the table are called and the loop exits only at the number of lines |
| Dispatch.LabelMapIsExact | Code/Ch3-Hardware-Architecture/transform_to_one_sub_per_line.pl:205-215 | every id in the label map is a line with that label, and every label is in the map |
| Dispatch.LabelMapFindsTarget | Code/Ch3-Hardware-Architecture/transform_to_one_sub_per_line.pl:205-226 | with unique labels the map gives the line a goto means |
| Dispatch.BuildLabelMap | Code/Ch3-Hardware-Architecture/transform_to_one_sub_per_line.pl:205-215 | the loop over the lines builds that map |
| Dispatch.RewriteLine | Code/Ch3-Hardware-Architecture/transform_to_one_sub_per_line.pl:220-235 | the in-place edits of one line give its rewritten text, for every kind of line, with or without label |
| Dispatch.RewriteLines | Code/Ch3-Hardware-Architecture/transform_to_one_sub_per_line.pl:216-239 | the loop rewrites every line against the finished label map |
| Dispatch.CallOfRewritten | Code/Ch3-Hardware-Architecture/transform_to_one_sub_per_line.pl:220-236 | what each kind of rewritten line does to pc and the variables |
| Dispatch.ConditionalGotoGoesWhereItsTestSays | Code/Ch3-Hardware-Architecture/transform_to_one_sub_per_line.pl:227-229 | the generated function of a conditional goto goes to its target exactly when the test holds of the variables it names, else one line on |
| Dispatch.SourceGoesWhereItsTestSays | Code/Ch3-Hardware-Architecture/transform_to_one_sub_per_line.pl:224-229 | so does the conditional goto of the task, to the line that carries its label |
| Dispatch.StatementAssignsItsVariables | Code/Ch3-Hardware-Architecture/transform_to_one_sub_per_line.pl:233-235 | the generated function of a statement gives the variables it names what it computes from them, and all others keep their values |
| Dispatch.SourceAssignsItsVariables | Code/Ch3-Hardware-Architecture/transform_to_one_sub_per_line.pl:233-235 | so does the statement of the task |
| Dispatch.DispatchLoop | Code/Ch3-Hardware-Architecture/transform_to_one_sub_per_line.pl:271-275 | the generated loop does the steps of the dispatch run, whose single calls the rows above and the lockstep theorems pin down |
| TaskSwitch.TimeSlicingKeepsMeaning | Code/Ch3-Hardware-Architecture/transform_to_one_sub_per_line.pl:38-89 | tasks compiled with one increment per line and interleaved in any way stand, each with its own variables, where their goto programs stand after as many steps, and have executed the same lines: as many as they were given, or all until the goto program halts |
| TaskSwitch.EachTaskRunsAsIfAlone | Code/Ch3-Hardware-Architecture/transform_to_one_sub_per_line.pl:38-89 | for every interleaving with contexts saved and restored at switches, registers, variables and trace of each task are those of the task run alone |
| TaskSwitch.StepMovesOneTask | Code/Ch3-Hardware-Architecture/transform_to_one_sub_per_line.pl:38-89 | a line moves only the current task, a switch moves none |
| TaskSwitch.Hoist | Code/Ch3-Hardware-Architecture/transform_to_one_sub_per_line.pl:104-136 | hoisting succeeds exactly when all declared names are distinct, and then each variable has one owner, and the variables of different tasks are disjoint |
| TaskSwitch.TaskMachine.SaveContext | Code/Ch3-Hardware-Architecture/transform_to_one_sub_per_line.pl:38-54 | all sixteen registers go to the row of the task, and other rows stay |
| TaskSwitch.TaskMachine.RestoreContext | Code/Ch3-Hardware-Architecture/transform_to_one_sub_per_line.pl:63-80 | all sixteen registers come back from the row of the task |
| TaskSwitch.TaskMachine.Run | Code/Ch3-Hardware-Architecture/transform_to_one_sub_per_line.pl:38-89 | any list of lines and switches, run in place, reaches the state of the specification |
| TimeSlice.TasksResumeWithTheirContext | Code/Ch1-memory-centric-system-model/basic-OS-concepts/time_slice.py:4-30 | over any number of slices every task resumes with the R1..R15 it was switched out with, and with R0 too if pops decrement first; as written R0 gets the word above the stack window |
| TimeSlice.R0SurvivesExactlyByChance | Code/Ch1-memory-centric-system-model/basic-OS-concepts/time_slice.py:26-29 | as written, R0 survives exactly when the word above the stack window equals it |
| TimeSlice.R0IsLost | Code/Ch1-memory-centric-system-model/basic-OS-concepts/time_slice.py:26-29 | two bursts, as written, after which a task finds 0 in R0 where it left 7 |
| TimeSlice.PidAlternatesAndMspStays | Code/Ch1-memory-centric-system-model/basic-OS-concepts/time_slice.py:10-12 | over any number of slices registers 16 to 23 (MSP is 21) stay, and the PID is the first one after an even number and the other after an odd number |
| TimeSlice.SliceTouchesOnly | Code/Ch1-memory-centric-system-model/basic-OS-concepts/time_slice.py:4-30 | a slice changes the PID cell, the stack window and the control block of the task switched out, and no other word |
| TimeSlice.PopRestores | Code/Ch1-memory-centric-system-model/basic-OS-concepts/time_slice.py:17-29 | two pops of the same order cancel: the reversal of saving is undone by that of restoring |
| TimeSlice.Slice | Code/Ch1-memory-centric-system-model/basic-OS-concepts/time_slice.py:4-30 | the four loops in place leave exactly the memory and registers of the specification, for both pop orders |
| TimeSlice.PushRegisters | Code/Ch1-memory-centric-system-model/basic-OS-concepts/time_slice.py:6-8 | the first loop pushes R0..R15 |
| TimeSlice.PopToTcb | Code/Ch1-memory-centric-system-model/basic-OS-concepts/time_slice.py:17-20 | the second loop pops into the control block, reading before or after the decrement |
| TimeSlice.PushFromTcb | Code/Ch1-memory-centric-system-model/basic-OS-concepts/time_slice.py:22-25 | the third loop pushes the other control block |
| TimeSlice.PopToRegisters | Code/Ch1-memory-centric-system-model/basic-OS-concepts/time_slice.py:27-29 | the fourth loop pops into R0..R15 |
| Machine.MachineRunsProgram | Code/Ch1-memory-centric-system-model/advanced-model/abstract_system_processor.py:15-25 | encoded words, fetched, decoded and executed, and high-level instructions among them, agree with the symbolic program for any number of cycles while PC stays in it and no line changes its words |
| Machine.CycleFollowsProgram | Code/Ch1-memory-centric-system-model/advanced-model/abstract_system_processor.py:15-25 | one cycle does what one line means, also for a high-level instruction, and keeps the code in place |
| Machine.EncodeProgram | Code/Ch1-memory-centric-system-model/advanced-model/abstract_system_encoder.py:35-51 | for every instruction but ADR and BX: assembling fails exactly when a label (of CBZ, CBNZ, B or BL) is used before its first definition; else word k is instruction k with its label replaced by CODE plus the line of its latest definition, and HLI lines come with their function |
| Machine.DecodeEncode | Code/Ch1-memory-centric-system-model/advanced-model/abstract_system_cpu_decode.py:40-56 | decoding gives back opcode and operands of every instruction in range but HLI, from words below 2^64 that are not taken for an HLI: fields below 256, second fields below 2^48, targets of B and BL below 2^56 |
| Machine.EncodingIsInjective | Code/Ch1-memory-centric-system-model/advanced-model/abstract_system_encoder.py:17-32 | instructions in range with the same word have the same opcode and operands, and are equal if they use no label |
| Machine.WordsOfThreeOperands | Code/Ch1-memory-centric-system-model/advanced-model/abstract_system_encoder.py:29-31 | the words of one instruction of each kind with three operands, as numbers |
| Machine.WordsOfOtherInstructions | Code/Ch1-memory-centric-system-model/advanced-model/abstract_system_encoder.py:17-28 | the words of one instruction of each other kind, as numbers |
| Machine.AdrKeepsShortTargetsOnly | Code/Ch1-memory-centric-system-model/advanced-model/abstract_system_cpu_decode.py:28-38 | an ADR is encoded with a long target but decoded as three registers: the target comes back, in two fields, exactly when it is below 2^16 |
| Machine.ExecuteMeans | Code/Ch1-memory-centric-system-model/advanced-model/abstract_system_cpu_execute.py:6-62 | executing the decoded fields is what the instruction means, for every instruction but HLI; B and BL fail |
| Machine.ProductIsRepeatedAddition | Code/Ch1-memory-centric-system-model/advanced-model/abstract_system_alu.py:3-13 | MUL gives 0 for a factor 0, and one more on a factor adds the other, modulo 2^64 |
| Machine.SumAndDifference | Code/Ch1-memory-centric-system-model/advanced-model/abstract_system_alu.py:3-13 | ADD is the sum, less 2^64 when it does not fit, and SUB takes it back |
| Machine.LogicWorksBitByBit | Code/Ch1-memory-centric-system-model/advanced-model/abstract_system_alu.py:3-13 | each of the 64 bits that AND, ORR and EOR give comes from the same bits of the operands |
| Machine.LeftShiftDoubles | Code/Ch1-memory-centric-system-model/advanced-model/abstract_system_alu.py:3-13 | ASL by 0 changes nothing, and by one more doubles once more, modulo 2^64 |
| Machine.RightShiftHalves | Code/Ch1-memory-centric-system-model/advanced-model/abstract_system_alu.py:3-13 | ASR by 0 changes nothing, and by one more halves once more, rounding down |
| Machine.RightShiftIsQuotient | Code/Ch1-memory-centric-system-model/advanced-model/abstract_system_alu.py:3-13 | ASR by y up to 64 is the quotient by 2^y |
| Machine.LoadReadsWhatStoreWrote | Code/Ch1-memory-centric-system-model/advanced-model/abstract_system_cpu_execute.py:7-14 | a load after a store to its address gives the stored register; the store changes one word, the load one register |
| Machine.ConditionalBranchesAreOpposite | Code/Ch1-memory-centric-system-model/advanced-model/abstract_system_cpu_execute.py:25-32 | of CBZ and CBNZ exactly one jumps, CBZ on zero, and only PC changes |
| Machine.PushStoresAtStackPointer | Code/Ch1-memory-centric-system-model/advanced-model/abstract_system_cpu_execute.py:15-19 | PUSH stores its register at SP, moves SP one up and changes nothing else |
| Machine.UnknownOpcodesFail | Code/Ch1-memory-centric-system-model/advanced-model/abstract_system_cpu_execute.py:33-41 | B and BL fail, and so do opcodes without an operation |
| Machine.SuspendedCycleMovesOnlyPc | Code/Ch1-memory-centric-system-model/advanced-model/abstract_system_processor.py:15-18 | while register 23 is not zero a cycle moves PC and changes nothing else |
| Machine.PopUndoesPushExactly | Code/Ch1-memory-centric-system-model/advanced-model/abstract_system_cpu_execute.py:15-24 | POP after PUSH gives the register back exactly when the word above the one pushed equals it |
| Machine.Processor.ProcessorAction | Code/Ch1-memory-centric-system-model/advanced-model/abstract_system_processor.py:10-26 | interrupt check, fetch, suspension, decoding and execution in place, also of high-level instructions, are those of the specification, and fail exactly where that fails |
| Machine.Processor.ExecuteInstruction | Code/Ch1-memory-centric-system-model/advanced-model/abstract_system_cpu_execute.py:6-62 | each branch assigns in place what the specification says, and fails exactly where that fails |
| Machine.Processor.RunHighLevel | Code/Ch1-memory-centric-system-model/advanced-model/abstract_system_cpu_execute.py:56-58 | a high-level instruction replaces registers and memory by what it computes, of the same sizes |
| Machine.Processor.CheckIrqs | Code/Ch1-memory-centric-system-model/advanced-model/abstract_system_cpu_irqs.py:3-17 | the first raised line, and no other, is cleared and its handler made next; it fails exactly without a vector or without the suspension register |
| Machine.FirstRaisedLineIsServed | Code/Ch1-memory-centric-system-model/advanced-model/abstract_system_cpu_irqs.py:3-17 | for the first raised line k, PC gets the word of vector k, LR the interrupted address and register 23 zero; flag k is cleared, and all other registers, flags and words stay |
| Machine.NothingRaised | Code/Ch1-memory-centric-system-model/advanced-model/abstract_system_cpu_irqs.py:3-17 | without a raised line nothing changes |
| Machine.InterruptComesBeforeCycle | Code/Ch1-memory-centric-system-model/advanced-model/abstract_system_processor.py:12-25 | with peripherals the cycle is already the first of the handler; without them flags are ignored |
| Machine.ReturnFromInterrupt | Code/Ch1-memory-centric-system-model/advanced-model/abstract_system_cpu_irqs.py:3-17 | a handler that ends in BX LR goes on where the program was interrupted, no longer suspended; one raised line fewer is left |
| Machine.Processor.FetchInstruction | Code/Ch1-memory-centric-system-model/advanced-model/abstract_system_cpu_fetch.py:5-22 | the word at PC, and PC one further |
| Machine.Processor.AssembleAndLoad | Code/Ch1-memory-centric-system-model/advanced-model/abstract_system_code.py:67-82 | the assembled words are in memory from CODE on and the high-level instructions in their table, and other words stay |
| Fibonacci.FibProgramIsFib | Code/Ch1-memory-centric-system-model/cpp-code/abstract_system_code.cc:14-27 | the twelve lines are the program that the next rows speak of, with the label of line 10 resolved to line 5 |
| Fibonacci.MachineComputesFibonacci | Code/Ch1-memory-centric-system-model/cpp-code/abstract_system_code.cc:14-27 | for every loop count n from 1 to CODE the encoded program reaches the WFI after 5 + 6n cycles and is at an earlier line after any smaller number, with Fib(n - j + 2) mod 2^64 at each j < n and all other words, the code among them, as they were |
| Fibonacci.ResultsStay | Code/Ch1-memory-centric-system-model/cpp-code/abstract_system_code.cc:26-56 | later cycles over zeroed code words change only PC |
| Fibonacci.UnwrappedUpTo91 | Code/Ch1-memory-centric-system-model/cpp-code/abstract_system_code.cc:14-27 | all results are unwrapped exactly when n <= 91 |
| Fibonacci.ComputeFibonacci | Code/Ch1-memory-centric-system-model/cpp-code/abstract_system_code.cc:10-57 | assembling, loading and running in place leaves those results |
| Fibonacci.OnePass | Code/Ch1-memory-centric-system-model/cpp-code/abstract_system_code.cc:20-25 | the six lines of a pass add, shift, count down, store and branch |
| Fibonacci.HighLevelDoesTheLoop | Code/Ch1-memory-centric-system-model/advanced-model/abstract_system_code.py:24-37 | on the machine, from any R1 and R2 and wherever the loop stands in a program, its 6n cycles leave the memory and all registers but PC that the high-level instruction computes |
| Fibonacci.OneHliReplacesTheLoop | Code/Ch1-memory-centric-system-model/advanced-model/abstract_system_code.py:24-37 | of two machines with the same data, one cycle of the one at an HLI fib_hl and 6n cycles of the other at the encoded loop lead to the same data memory and registers; the HLI goes on exactly when the last number fits a word |
| Fibonacci.TimerProgramHasLoop | Code/Ch1-memory-centric-system-model/advanced-model/abstract_system_code.py:43-64 | the program of the Python model has that loop at line 11 |
| Fibonacci.TimerProgramAssembles | Code/Ch1-memory-centric-system-model/advanced-model/abstract_system_code.py:43-67 | that program assembles: its label is defined before use and its operands fit their fields |
| Fibonacci.FibHl | Code/Ch1-memory-centric-system-model/advanced-model/abstract_system_code.py:24-37 | the high-level instruction in place succeeds exactly when its results fit the memory and its last number 64 bits, and then leaves the numbers of the recurrence |
| SelectServer.Server.Serve | Code/Ch10-networking/TCPserverSelectHi.c:73-114 | fdmax is the maximum of master at the head of every round; each ready descriptor is served exactly once per round, new ones wait; master then holds the server socket, the clients that were not ready and the accepted one, and no other |
| SelectServer.Server.LowerMaximum | Code/Ch10-networking/TCPserverSelectHi.c:108-110 | the decrement loop terminates at the maximum, at or above the server socket |
| SelectServer.Server.ServeAll | Code/Ch10-networking/TCPserverSelectHi.c:73-115 | the same over any number of rounds |
| SelectServer.ConnectionsAreConserved | Code/Ch10-networking/TCPserverSelectHi.c:73-115 | over any number of rounds, each descriptor is open as often as it was at the start or accepted since, less the times it was served and closed |
| SelectServer.ClosedCountsRounds | Code/Ch10-networking/TCPserverSelectHi.c:89-111 | a client descriptor is closed once in each round that finds it ready |
| SelectServer.ServerSocketIsNeverClosed | Code/Ch10-networking/TCPserverSelectHi.c:76-111 | the server socket is never closed |
| SelectServer.AcceptedCountsRounds | Code/Ch10-networking/TCPserverSelectHi.c:77-88 | a descriptor is accepted in each round in which the server socket is ready and accept returns it |
| PeriodicTimer.TimerAction | Code/Ch1-memory-centric-system-model/advanced-model/abstract_system_peripherals.py:21-30 | one tick in place is the tick of the specification |
| PeriodicTimer.InterruptsAreEvenlySpaced | Code/Ch1-memory-centric-system-model/advanced-model/abstract_system_peripherals.py:21-30 | after n ticks from any start count c and period p, 0 interrupts if n < c, else 1 + (n - c) / p, with a zero c or p acting like 1 |
| PeriodicTimer.CountIsPeriodic | Code/Ch1-memory-centric-system-model/advanced-model/abstract_system_peripherals.py:21-30 | closed form of the remaining count |
| PeriodicTimer.TicksFromStart | Code/Ch1-memory-centric-system-model/advanced-model/abstract_system_peripherals.py:21-30 | for count c and period p of at least 1, after n ticks: 0 interrupts and count c - n if n < c, else 1 + (n - c) / p interrupts and count p - (n - c) mod p |

## Left out

- CacheModel.Cache: lines are values, so the rows of a new cache storage that share one list (line 4) are not modelled; no row is read before a fill replaces it.
- CacheModel.Cache.constructor: a cache of fewer than two locations is excluded; it is full when empty, and its first eviction looks up an address that is not there.
- StopAndWait.ClientMain: `select` and `recv` are one outcome, so an error or a signal that makes `select` return without a frame is not modelled.
- StopAndWait.CheckingClientDeliversInOrder: at most 2^32 lines, which CoveredExactlyWhenSound shows to be necessary.
- Dispatch.RewriteLine: a line is one statement, one goto or one conditional goto, as the script assumes; the regular expressions that find them in C text, and a statement in front of a goto on the same line, are not modelled.
- Dispatch.LockstepExactly: labels are unique and goto targets defined, as C demands; running past the table of functions is an error state.
- TaskSwitch.Hoist: names are compared as the script's key text; that key includes a subscript, so one array declared with two sizes passes the script and is left to the C compiler.
- TaskSwitch.TimeSlicingKeepsMeaning: a statement is any function of the variables it names; shared globals, output, the stack copy under HAS_STACK and the blocking timer are not modelled.
- TimeSlice.Slice: PID, TCB_OFFSET and TCB_SZ are parameters, since the source does not define them; they and the stack window are taken to lie apart.
- Machine.EncodeProgram: BX, which the Python encoder cannot encode, and ADR are no instructions of a program here.
- Machine.ExecuteMeans: DIV, a floating-point division in Python, counts as a failure; AND, OR, EOR and shifts are bitwise as in Python, where C++ has logical values and undefined shifts by 64 and more; C++ has no B and lets BL jump to 0.
- Machine.Processor.ExecuteInstruction: DIV, as before.
- Machine.Processor.ProcessorAction: the mode in which all code is high-level (line 19) is off; fetching in that mode fails on the code that the loader makes for it. Suspension by register 23 is absent when there are 16 registers, as in C++.
- Machine.Processor.FetchInstruction: the look-up of high-level instructions is in `FetchAndExecute`; a negative index into their table fails instead of counting from its end.
- SelectServer.Server.Serve: `accept` succeeds and returns no descriptor that is still open; reading a line from a client is one abstract action, and the size limit of descriptor sets is not modelled.
- Sockets, standard input and output, byte order and real time are parameters: received frames, outcomes of `select`, ready descriptors.
- The other servers and clients, the OpenCL skeleton, DMA and the device stubs, and the translator to C++ hold no run-time state worth a theorem or no defined meaning.
