# fayasm, verified

fayasm is a WebAssembly interpreter written in C. It never builds a tree of a function's code: it
finds block ends by scanning bytes, keeps a stack of labels per call frame, and rediscovers nesting
as it runs. Beside plain dispatch it keeps prepared programs in a budgeted cache, and it can spill
prepared programs and linear memories to the embedder's storage. This project models that engine in
Dafny and proves that these shortcuts are right.

What is proved, by component:

* **Structured control on flat bytes.** On every call-free body that spells an instruction tree, the
  machine stops in an outcome exactly when a structured big-step semantics ends in it
  (`Simulation.StructuredRefinement`); read from the tree, a job on the encoding of a function is
  over exactly as the semantics takes the function's tree (`EncodedJobs.EncodedJobsRefine`), and for
  trees without a loop that has results and no parameters the label types are the standard's
  (`EncodedJobs.RegularJobsRefine`). In every state any job reaches, on any bytes, the control stack
  has the static nesting depth of the program counter and its ranges nest around it
  (`Jobs.ControlStackTracksNesting`). A job on a well-bracketed function that ends OK leaves exactly
  its declared results (`Jobs.OkJobLeavesResults`), and a callee, however long it runs and whatever
  it calls, returns to exactly the frames at the call (`CallRuns.CalleeReturnsToCaller`). The three
  byte walkers agree (`Decoders.DecodersAgree`), and every instruction round-trips through the
  decoder (`Encoding.InstructionRoundTrip`).
* **The cache of prepared programs.** Over whole runs it is invisible, whatever requests, decisions,
  budgets and hook failures fall into them (`JitRuns.JitTransparent`); it accounts for every byte
  (`JitRuns.JitJobsAreJobs`) and stays under a cap on the budgets (`JitRuns.NeverOverBudget`);
  eviction is complete (`JitCache.ReserveComplete`); a prescan covers every position that is ever
  executed (`OpcodeIndex.PrescanCoversRuns`, `JitStart.AttachCoversRuns`), and a turn leaves its
  instruction prepared where it may (`JitRuns.TurnMakesHit`). Prescans at attach and forced prescans
  at a job's start refuse exactly the modules with a body they cannot walk
  (`JitStart.AttachExactly`, `JitStart.StartExactly`).
* **Spilling.** Spilled memories are invisible to any program (`MemoryRuns.SpillsAreInvisible`),
  under an exact condition on the load hook; blobs of programs and memories round-trip
  (`JitPrograms.ProgramRoundTrip`, `MemoryBlobs.MemoryRoundTrip`).
* **The two linked stores.** The operand stack and the immediate window refine sequences
  (`OperandStack`, `Window`), and immediates are conserved from decoder to handler
  (`Window.ImmediatesConserved`; for the memory instructions down to their handlers,
  `MemoryImmediates.DecodedIsTaken`).
* **Linear memory and imports.** Bounds, loads, stores, growth and bulk instructions
  (`LinearMemory`, `MemoryMeaning`, `MemoryFaults`; in place in `MemoryHandlers`), and
  all-or-nothing rebinding of imported memories (`Imports`).

## Layout

`Core` holds values, statuses and results. `Leb128`, `Decoders`, `Encoding` are the byte formats;
`Machine`, `Nesting`, `Structured`, `Simulation`, `LabelRules` the control machine and its theorems,
`ControlMeaning` what its instructions do to the bits they find; `Jobs` and `CallRuns` frames, calls
and whole jobs, `EncodedJobs` jobs on encoded functions; `OperandStack`, `Window`, `CallFrames` the
same state as linked nodes and frames updated in place. `OpcodeIndex`, `JitPrograms`, `JitCache`,
`JitStart`, `JitRuns` are the cache, `ProgramCache` its records and tables in place. `Spill`,
`LinearMemory`, `MemoryRuns`, `MemoryMeaning`, `MemoryFaults`, `MemoryBlobs`, `MemoryObjects` are
memory and spilling, with `MemoryImmediates` their immediates and `MemoryHandlers` the memory
instructions on linked stack, window and records; `Imports` holds the bindings. Where the C code
updates state in place, a class or a loop does the same and is held to a function; the theorems are
about those functions.

Instruction handlers are a parameter (`Env.run`): any deterministic function of the operand stack,
the window, the locals and the store. Imported functions are another (`Env.host`). The control
theorems hold for all of them.

## Where the code departs from the standard or its own intent

The model follows the code; each point is visible in a definition or a lemma.

* A branch to a loop without parameters uses the loop's result types: exactly a loop with results
  and no parameters has other label types than in the standard (`LabelRules.LabelTypesExactly`), and
  one that spins there traps (`LabelRules.SpinDeparts`).
* The function label's height is 0, so a callee's `end` discards the caller's pending operands
  (`Jobs.ReturnKeepsCallerExactly`); this is why the result theorem speaks of the whole stack and
  the structured refinement of call-free bodies.
* `if` with results and no `else` is refused (`Machine.EnterIf`); block types that are references
  are refused, and type index 0x40 is read as the empty type (`LabelRules.BlockSignatureExactly`).
* The signed LEB128 reader takes numbers cut off by the end of the buffer within nine bytes
  (`Leb128.SLebAccepts`, `Leb128.SLebTakesTruncated`).
* A forced prescan keeps a job from starting when any internal body holds bytes it cannot walk, even
  where no job would get (`JitStart.DeadBytesStopPrescan`); otherwise it changes nothing
  (`JitStart.ForcedStartExactly`).
* The executing decoder cuts 0xFC subopcodes to 32 bits; the other two refuse wide ones
  (`Decoders.DecodersAgree`). A wide 0xFD subopcode is decoded as bare but dispatched by its low
  bits (`Window.ImmediatesConserved`).
* Lane loads and stores with several memories push five immediates into a window of four; their
  handler then runs short (`Window.ImmediatesConserved`).
* An access of no bytes is allowed at any address, but not on a memory that has none
  (`LinearMemory.BoundsAreExact`).

## Model

| member | source | states |
|---|---|---|
| `Leb128.ReadULeb128` | src/fa_runtime.c:2272-2293 | the loop with its shift and running result computes the sum of the 7-bit groups modulo 2^64, or fails |
| `Leb128.ReadSLeb128` | src/fa_runtime.c:2295-2323 | the signed loop computes the sign-extended sum of groups cut to 64 bits, including the cases that run off the buffer |
| `Leb128.ULebRoundTrip` | src/fa_runtime.c:2272-2293 | the canonical encoding of any u64, anywhere in a larger buffer, decodes to that value and its exact length |
| `Leb128.SLebRoundTrip` | src/fa_runtime.c:2295-2323 | the same for any i64 |
| `Leb128.ULebAccepts` | src/fa_runtime.c:2272-2293 | the unsigned reader accepts exactly when one of the first ten bytes ends the number inside the buffer, so every unterminated input is refused |
| `Leb128.SLebAccepts` | src/fa_runtime.c:2295-2323 | the signed reader accepts exactly when one of the first ten bytes ends the number or the buffer ends within the next nine, so an unterminated tail is refused exactly when it is empty or ten bytes or longer |
| `Leb128.SLebTakesTruncated` | src/fa_runtime.c:2303-2316 | departure, exactly: the readers differ on the numbers cut off by the end of the buffer within nine bytes and on no others; the signed one takes them |
| `Leb128.TruncatedWitness` | src/fa_runtime.c:2303-2316 | such a number and the value it is given |
| `Decoders.SkipLabels` | src/fa_runtime.c:2348-2370 | the label loop of br_table leaves the cursor where the layout table says |
| `Decoders.DecodeTable` | src/fa_runtime.c:3976-4027 | the decoder's label loop collects all labels in order and the default, with the same failures |
| `Decoders.SkipMeetsLayout` | src/fa_runtime.c:2325-2551 | the scanner's skipper agrees with one layout table of the binary format on every opcode, except that it refuses 0xFC subopcodes of 2^32 and more |
| `Decoders.PrescanMeetsLayout` | src/fa_runtime.c:1863-2069 | so does the prescan's skipper, block types included |
| `Decoders.DecodersAgree` | src/fa_runtime.c:3863-4541 | whenever the executing decoder succeeds it stops inside the body, exactly where the layout says; prescan and (off block openers) scanner stop there too if and only if the instruction is not a wide 0xFC prefix |
| `Encoding.InstructionRoundTrip` | src/fa_runtime.c:3863-4541 | every instruction with operands in range, encoded, decodes to its opcode and operands in their roles, widths and order, and the decoder stops right behind it |
| `Encoding.TableRoundTrip` | src/fa_runtime.c:3976-4027 | an encoded br_table decodes to its labels in order and its default |
| `Encoding.LabelsRoundTrip` | src/fa_runtime.c:3993-4010 | any vector of labels survives encode and decode |
| `Encoding.ArgRoundTrip` | src/fa_runtime.c:4194-4239 | a memory argument decodes to memory index (several memories only), alignment and an offset as wide as the memory's addresses |
| `Encoding.BulkRoundTrip` | src/fa_runtime.c:4240-4417 | the indices of every bulk instruction decode in the order written, the subopcode last |
| `Encoding.SimdRoundTrip` | src/fa_runtime.c:4418-4527 | constants, memory arguments and lanes of 0xFD instructions decode in the order written, the subopcode last |
| `Encoding.DeclsRoundTrip` | src/fa_runtime.c:2796-2809 | local declarations are read back as written and the code starts right behind them |
| `Window.ImmediateWindow.Append` | src/fa_ops.c:133-147 | links the node behind the most recent one, both ways |
| `Window.ImmediateWindow.DropOldest` | src/fa_ops.c:121-130 | cuts the oldest node off; the rest stays one chain |
| `Window.ImmediateWindow.Push` | src/fa_ops.c:113-147 | pushing appends and then, counting back and dropping from the far end, keeps the most recent four |
| `Window.ImmediateWindow.Pop` | src/fa_ops.c:149-165 | popping takes the most recent immediate, if any, and leaves the others in order |
| `Window.CountBack` | src/fa_ops.c:100-111 | the walk from the tail counts the chain and finds its far end |
| `Window.PushEachIsTrim` | src/fa_runtime.c:2730-2771 | trimming after every push leaves what one trim at the end leaves |
| `Window.ImmediatesConserved` | src/fa_runtime.c:4042-4527 | from an empty window, decoding overflows it if and only if the instruction is a lane load or store with several memories; every other instruction but a wide 0xFD prefix has each immediate popped in the role it was decoded for and leaves the window empty; a wide 0xFD prefix leaves its handler short exactly when the instruction of its low 32 bits has operands |
| `MemoryImmediates.HandlerDrains` | src/fa_ops.c:1236-1403 | the account of what handlers pop is what the memory handlers do: they begin exactly when the window has it, take exactly that, and fail otherwise |
| `MemoryImmediates.DecodedIsTaken` | src/fa_ops.c:2945-3096 | a decoded load, store, size, grow, init, drop, copy or fill finds in an empty window just its own immediates, takes each in the role it was decoded for, asks for the memories decoded as memories, and leaves the window empty |
| `Machine.ScanBlock` | src/fa_runtime.c:2553-2606 | the scanning loop terminates and computes the recursive scan |
| `Structured.ScanPassesOver` | src/fa_runtime.c:2553-2606 | the scan passes over the bytes of any nested tree without a change of depth or else position |
| `Structured.ScanFindsEnd` | src/fa_runtime.c:2553-2606 | started at a block's body it returns the position behind the matching end, and no else |
| `Structured.ScanFindsElse` | src/fa_runtime.c:2553-2606 | and exactly the else that belongs to the block when there is one |
| `Encoding.EncodedScan` | src/fa_runtime.c:2553-2606 | the same for the encoding of any trees at any place in any bytes |
| `Encoding.TreeRoundTrip` | src/fa_runtime.c:2553-2606 | the encoding of any call-free tree spells that tree, so the refinement theorem covers all of them |
| `Machine.UnwindKeepsTop` | src/fa_runtime.c:4555-4610 | unwinding succeeds exactly when enough operands of the right kinds are there; it keeps the stack up to the height and the top values in order, and otherwise only drops values |
| `ControlMeaning.BranchIfDoes` | src/fa_runtime.c:4722-4731 | br_if takes the value off and branches if and only if it is no false value, written out on the bits: zero integers and references, float zeros of either sign, and vectors are false |
| `ControlMeaning.IfDoes` | src/fa_runtime.c:3922-3957 | an if takes its first arm on a true condition and the second on a false one or, having none, drops its operands and goes on behind its end |
| `ControlMeaning.BranchTableDoes` | src/fa_runtime.c:4733-4748 | br_table takes the index off, unsigned for each kind of value, and branches to its label or the default; a vector traps |
| `ControlMeaning.NoConditionTraps` | src/fa_runtime.c:4722-4748 | without a condition or an index both trap and leave everything as it was |
| `ControlMeaning.BlockDoes` | src/fa_runtime.c:3876-3918 | a block or loop opens a label below its operands; wrong operands trap first, and a type code wider than a byte is refused |
| `ControlMeaning.OpenFails` | src/fa_runtime.c:3876-3955 | what keeps a block from opening, in order, with the status and the operands each refusal leaves |
| `ControlMeaning.EdgesDo` | src/fa_runtime.c:4651-4864 | the end of the bytes finishes a frame, bytes that are no instruction end the job with the decoder's failure, unreachable empties the stack and traps |
| `ControlMeaning.MatchesExactly` | src/fa_runtime.c:2628-2649 | which kind of value each type code asks for |
| `ControlMeaning.ZeroExactly` | src/fa_runtime.c:2860-2869 | a type has a zero if and only if it has values; the zero is one of them with no bit set |
| `ControlMeaning.PlainDoes` | src/fa_runtime.c:4827-4911 | a plain instruction is run with the last four immediates in the window; failures end it with their status, calls go on to the callee, anything else to the next instruction |
| `ControlMeaning.OpDoes` | src/fa_ops.c:7010-7047 | what a row of the opcode table runs: its handler, its one microcode step, or nothing |
| `ControlMeaning.StepsCompose` | src/fa_ops.c:7010-7047 | microcode steps run one after the other, the later ones only if the earlier ended well |
| `OperandStack.JobStack.Push` | src/fa_job.c:25-44 | push keeps head, tail, links and size one chain and appends the value |
| `OperandStack.JobStack.Pop` | src/fa_job.c:46-65 | pop removes the last value, if any |
| `OperandStack.JobStack.Peek` | src/fa_job.c:67-80 | peek finds the value at any depth and nothing below the bottom |
| `OperandStack.JobStack.Reset` | src/fa_job.c:6-23 | reset visits every node and leaves an empty stack |
| `OperandStack.JobStack.CheckTypes` | src/fa_runtime.c:2651-2696 | the check succeeds exactly when the top of the stack has the kinds asked for, last type on top |
| `OperandStack.JobStack.UnwindTo` | src/fa_runtime.c:4555-4610 | unwinding the linked stack, loop by loop, is the unwind function on its contents, failures included |
| `OperandStack.JobStack.TakeChecked` | src/fa_runtime.c:4580-4591 | values are saved newest first up to the first that does not match |
| `OperandStack.JobStack.CutTo` | src/fa_runtime.c:4593-4599 | the loop pops to exactly the height |
| `OperandStack.JobStack.PutBack` | src/fa_runtime.c:4600-4608 | the saved values go back in their original order |
| `CallFrames.CallFrame.BranchToLabel` | src/fa_runtime.c:4612-4649 | a branch in place: unwind to the label's height and types (a loop without parameters uses its results), jump, drop labels |
| `CallFrames.CallFrame.EnterBlock` | src/fa_runtime.c:3895-3918 | block and loop: operands checked, then a label with the right height |
| `CallFrames.CallFrame.EnterArm` | src/fa_runtime.c:4673-4698 | with the condition off the stack: operands checked, the label's height set below them, an arm taken |
| `CallFrames.CallFrame.EnterIf` | src/fa_runtime.c:3938-3957 | if: refused with results and no else; the label is pushed before the condition is popped and its height corrected |
| `CallFrames.CallFrame.TakeArm` | src/fa_runtime.c:4690-4698 | a false condition goes to the else part or, without one, to the label's end |
| `CallFrames.CallFrame.Enter` | src/fa_runtime.c:3876-3957 | signature, scan and entry in the order of the code, with its error codes |
| `CallFrames.CallFrame.ExecuteEnd` | src/fa_runtime.c:4703-4720 | end unwinds and closes the innermost label; the last one finishes the function |
| `CallFrames.CallFrame.ExecuteControlOp` | src/fa_runtime.c:4651-4761 | every control instruction on the real frame and linked stack is the machine's step |
| `Nesting.ScanWalks` | src/fa_runtime.c:2553-2606 | a scan that succeeds is a walk of the linear decode from depth to 0, and its else lies at depth 1 |
| `Nesting.BranchStaysInStep` | src/fa_runtime.c:4612-4649 | branches keep program counter and control stack in step |
| `Nesting.EnterStaysInStep` | src/fa_runtime.c:3876-3957 | so does entering a block |
| `Nesting.EndStaysInStep` | src/fa_runtime.c:4703-4720 | so does an end |
| `Nesting.StepStaysInStep` | src/fa_runtime.c:4651-4761 | so does any turn on any bytes |
| `Nesting.InStepMeansNested` | src/fa_runtime.c:1308-1393 | in step means: control depth is the static nesting depth under the linear decode, and the label ranges nest strictly around the program counter |
| `Jobs.ControlStackTracksNesting` | src/fa_runtime.c:4763-4920 | that holds for every frame in every state any job reaches, over all bytes, branches and calls, and every range ends inside the body |
| `Simulation.SimCode` | src/fa_runtime.c:4651-4761 | the machine on spelled code reaches the flow the structured semantics gives it |
| `Simulation.CloseBlock` | src/fa_runtime.c:4703-4720 | falling through an end and jumping to the label settle operands alike |
| `Simulation.StoppedIsExecuted` | src/fa_runtime.c:4763-4920 | a machine that stops has an outcome the structured semantics finds |
| `Simulation.StructuredRefinement` | src/fa_runtime.c:4612-4761 | for every call-free body that spells a tree: the machine stops in an outcome (operands, locals, store, status) if and only if the structured semantics, with the code's label types, ends in it; so divergence agrees too |
| `Encoding.EncodedFunctionsRefine` | src/fa_runtime.c:4763-4920 | the same theorem read from the tree: any tree, encoded behind any locals, runs to what the structured semantics makes of it |
| `EncodedJobs.JobFollowsFrame` | src/fa_runtime.c:4763-4920 | a job of one frame without calls goes through the states of that frame and is over one turn after it stops |
| `EncodedJobs.EncodedJobsRefine` | src/fa_runtime.c:4763-4920 | from the bytes of a function to a finished job: for any declarations, any call-free tree and arguments of the right kinds (or none), the job is over with a status, operands, window and store if and only if the structured semantics takes the tree there from those arguments and zeros |
| `EncodedJobs.RegularJobsRefine` | src/fa_runtime.c:4763-4920 | for trees without a loop that has results and no parameters the same holds of the semantics with the standard's label types |
| `LabelRules.LabelTypesExactly` | src/fa_runtime.c:4612-4649 | a label has its standard types if and only if it is not of a loop with results and no parameters |
| `LabelRules.RulesAgree` | src/fa_runtime.c:4612-4649 | code without such loops means the same under both rules, for every state and budget |
| `LabelRules.StandardRefinement` | src/fa_runtime.c:4612-4761 | so such functions refine the semantics with the standard's label types |
| `LabelRules.SpinDeparts` | src/fa_runtime.c:4612-4649 | departure: a parameterless loop that jumps to its own label at once runs forever by the standard, and traps here if and only if it has results |
| `LabelRules.BlockSignatureExactly` | src/fa_runtime.c:1452-1512 | block types are read as the standard does if and only if they are neither references nor type index 0x40, unless type 0x40 is the empty type |
| `Jobs.ReadDecls` | src/fa_runtime.c:2796-2809 | the loop over the declarations collects counts and types |
| `Jobs.CountLocals` | src/fa_runtime.c:2826-2837 | the running total refuses exactly the declarations that leave 32 bits |
| `Jobs.AppendZeros` | src/fa_runtime.c:2861-2868 | one declaration adds its zero as often as it asks |
| `Jobs.FillLocals` | src/fa_runtime.c:2860-2869 | the nested loop fills the declared locals with their zeros |
| `CallRuns.LocalsExactly` | src/fa_runtime.c:2773-2881 | the locals of a function: its parameters, then the declared ones in order, each with the zero of its type; refused exactly when they leave 32 bits or a type has no values |
| `Jobs.CallPassesArguments` | src/fa_runtime.c:3004-3097 | a call with values of the parameters' kinds on top of the stack starts the callee with them in order as its first locals, the rest zero, and leaves the caller what lay below; a call on any other stack, a shorter one included, traps |
| `CallRuns.FailedCallTakes` | src/fa_runtime.c:3035-3060 | a call whose operands do not fit takes them from the top up to and with the first of the wrong kind, or none if there are too few |
| `CallRuns.RefusedCall` | src/fa_runtime.c:3004-3097 | locals that cannot be set up end the job before an operand is taken, a result type without values after |
| `CallRuns.FirstFrame` | src/fa_runtime.c:3035-3097 | a job starts with one frame and an empty stack; given arguments are its first locals, without arguments all are zeros |
| `CallRuns.FinishReturns` | src/fa_runtime.c:3123-3130 | a frame that finishes leaves exactly the frames below it, as they were |
| `CallRuns.RunningGoesOn` | src/fa_runtime.c:4827-4920 | a frame that goes on is replaced by its next state; one that fails ends the job with its status |
| `CallRuns.CallDoes` | src/fa_runtime.c:3099-3121 | a call: bad targets trap or are refused, an imported function runs at once on operands, window and store, any other puts one frame on top of the waiting caller, up to the depth limit |
| `CallRuns.CallerWaits` | src/fa_runtime.c:4880-4911 | a call leaves the caller's labels alone and its position right behind the call |
| `CallRuns.TurnKeepsBelow` | src/fa_runtime.c:4827-4920 | no turn touches a frame below the top one |
| `CallRuns.LowFramesStay` | src/fa_runtime.c:4763-4920 | over whole runs: as long as there are more than k frames the lowest k stay as they are, and the first time there are no more, exactly these are left |
| `CallRuns.CalleeReturnsToCaller` | src/fa_runtime.c:4763-4920 | from a call on, whatever the callee does: in the first state with no more frames than at the call, the frames are those at the call, the caller right behind it with its labels and locals |
| `CallRuns.DepthBounded` | src/fa_runtime.c:4763-4920 | no job ever has more frames than the limit, 64 if none is set |
| `CallRuns.RunStaysInternal` | src/fa_runtime.c:3099-3121 | frames are only ever those of functions with a body |
| `CallRuns.StartChecksArguments` | src/fa_runtime.c:4763-4799 | a job is turned away if and only if its function does not exist, or arguments are given that do not fit its signature in number and kinds |
| `Jobs.ExecuteJob` | src/fa_runtime.c:4763-4920 | the execution loop is the iteration of one turn |
| `Jobs.JobStepOk` | src/fa_runtime.c:4763-4920 | every turn keeps all frames of a job in step |
| `Jobs.ScanShowsBrackets` | src/fa_runtime.c:2553-2606 | a body whose scan from the code start ends at its last byte is well bracketed |
| `Jobs.LeavingLeavesResults` | src/fa_runtime.c:4703-4757 | leaving a function by end, return or a branch to its outermost label leaves exactly its results |
| `Jobs.ReturnKeepsCallerExactly` | src/fa_runtime.c:4703-4757 | departure, exactly: a callee that leaves by end or return puts its results on top of its caller's pending operands if and only if there are none |
| `Jobs.EmptyCalleeDrops` | src/fa_runtime.c:4703-4720 | the empty function, called with a value pending, drops it |
| `Jobs.JobStepKeepsResults` | src/fa_runtime.c:4763-4920 | every turn keeps the promise that the last frame leaves its results |
| `Jobs.OkJobLeavesResults` | src/fa_runtime.c:4763-4920 | a job on a well-bracketed internal function that ends OK leaves exactly the declared results, in order and kind, on the whole operand stack, whatever calls it made |
| `OpcodeIndex.RecordKeepsIndex` | src/fa_runtime.c:1774-1806 | recording an opcode keeps the partial bijection of index and positions and everything recorded before |
| `OpcodeIndex.OpcodeTable.Reserve` | src/fa_runtime.c:1748-1772 | growing the arrays keeps their contents |
| `OpcodeIndex.OpcodeTable.EnsureSlots` | src/fa_runtime.c:1781-1790 | the position table is created once, all empty |
| `OpcodeIndex.OpcodeTable.MakeRoom` | src/fa_runtime.c:1794-1800 | a full table doubles, or takes its first capacity, and keeps its contents |
| `OpcodeIndex.OpcodeTable.RecordOpcode` | src/fa_runtime.c:1774-1806 | the arrays after an append, with regrowth, are the recorded index |
| `OpcodeIndex.OpcodeTable.Append` | src/fa_runtime.c:1801-1804 | one entry goes behind the others and its position points back to it |
| `OpcodeIndex.OpcodeTable.PrescanFunction` | src/fa_runtime.c:2071-2099 | the prescan loop leaves the index of the recursive prescan |
| `OpcodeIndex.SkipLocals` | src/fa_runtime.c:1808-1831 | the loop over local declarations finds their end or the same failure |
| `OpcodeIndex.PrescanKeepsIndex` | src/fa_runtime.c:2071-2099 | a prescan, successful or not, keeps the bijection and what was recorded |
| `OpcodeIndex.PrescanRecordsWalk` | src/fa_runtime.c:2071-2099 | a successful prescan records every place of the linear decode |
| `OpcodeIndex.LocalsEndAlike` | src/fa_runtime.c:2773-2881 | prescan and frame set-up agree on where the code starts |
| `OpcodeIndex.PrescanCoversRuns` | src/fa_runtime.c:4827-4849 | if the prescan of a function succeeds, every position any job ever executes in it is in the index |
| `JitPrograms.PrepareFromOpcodes` | src/fa_jit.c:267-286 | the loop prepares every opcode in order or nothing |
| `JitPrograms.PrepareAll` | src/fa_jit.c:267-286 | element by element, a program is the preparation of its opcodes |
| `JitPrograms.ExecutePreparedOp` | src/fa_jit.c:425-443 | the step loop stops at the first failing or missing step |
| `JitPrograms.PreparedIsDispatch` | src/fa_ops.c:7010-7047 | running a prepared opcode is running the opcode, when its microcode has one to four steps |
| `JitPrograms.AgreementIsExact` | src/fa_jit.c:243-265 | the bound on microcode is sharp: n steps agree with their prepared form, for all handlers, if and only if n is one to four |
| `JitPrograms.LongMicrocodeIsCut` | src/fa_jit.c:243-265 | why the bound is needed: of more than four steps a prepared operation would run only four (every microcode row of the source has one) |
| `JitPrograms.SerializeProgram` | src/fa_jit.c:380-405 | writes exactly header and opcode stream, or nothing |
| `JitPrograms.ProgramLayout` | src/fa_jit.c:370-405 | a program's blob byte by byte: the envelope of kind 1 and one opcode for each operation |
| `JitPrograms.ProgramRoundTrip` | src/fa_jit.c:370-423 | a program prepared from any opcodes is rebuilt the same from its blob, whatever follows it |
| `JitPrograms.ProgramAccepted` | src/fa_jit.c:370-423 | a buffer is taken for a program of n operations if and only if it starts with the envelope of n opcodes, holds them, and each has something to run |
| `JitCache.ReleaseKeepsCache` | src/fa_runtime.c:1567-1578 | releasing a slot gives its bytes back to the total |
| `JitCache.EvictKeepsCache` | src/fa_runtime.c:1617-1632 | evicting empties one slot, spills it at most, and moves nothing else |
| `JitCache.EvictDoes` | src/fa_runtime.c:1617-1632 | the evicted slot counts as spilled, and the hook holds its program, if and only if it was ready and a hook took it |
| `JitCache.EvictLoopVisits` | src/fa_runtime.c:1634-1668 | the loop visits consecutive slots from the cursor, each at most once, empties all of them but the protected one, and stops early only on success |
| `JitCache.EvictsNoneNeedlessly` | src/fa_runtime.c:1652-1666 | with the last slot visited still there the request would not fit |
| `JitCache.ReserveComplete` | src/fa_runtime.c:1634-1668 | with positive budget and request, room is refused if and only if the request exceeds the budget alone or with the protected slot's own program; that slot is never touched |
| `JitCache.ReserveKeepsCache` | src/fa_runtime.c:1634-1668 | making room keeps accounting, indices and the protected slot, and never raises the total |
| `JitCache.LoadKeepsCache` | src/fa_runtime.c:1670-1700 | reloading keeps the invariant at any budget, and raises the total at most up to the budget of the moment |
| `JitCache.PrepareKeepsCache` | src/fa_runtime.c:2182-2209 | so does preparing |
| `JitCache.LoadExactly` | src/fa_runtime.c:1670-1700 | a reload succeeds if and only if the hook is there, the slot has an index, the hook hands the program over and there is room; the slot then holds the program last spilled, and each failure has its code |
| `JitCache.PrepareExactly` | src/fa_runtime.c:2182-2209 | a preparation succeeds if and only if there are opcodes, room for them, and every one has something to run |
| `JitCache.RecordKeepsCache` | src/fa_runtime.c:2163-2180 | recording keeps prepared and spilled programs preparations of prefixes |
| `JitCache.MaybePrepareKeepsCache` | src/fa_runtime.c:2211-2239 | bringing a slot up to date keeps the invariant at any budget, and raises the total at most up to it |
| `JitCache.MaybePrepareExactly` | src/fa_runtime.c:2211-2239 | where microcode is on and something is recorded, the slot is ready afterwards if and only if it was, its program comes back, or there is room to prepare one |
| `JitCache.MaybePrepareDoes` | src/fa_runtime.c:2211-2239 | what the slot holds afterwards: the program last spilled if it comes back; else, unless everything recorded is prepared, the preparation of the first opcodes recorded (all, or as many as the limit), whatever was ready before; the slot as it was if there is no room or nothing to run |
| `JitCache.LookupFindsBody` | src/fa_runtime.c:2241-2270 | a hit is the preparation of the very byte at the program counter |
| `JitCache.LookupExactly` | src/fa_runtime.c:2241-2270 | when a lookup must hit, and with what: the position is recorded and its entry lies within the program the slot holds, or within the one that comes back; in no other case is there a hit |
| `ProgramCache.JitProgramCache.constructor` | src/fa_runtime.c:1707-1728 | a freshly attached cache: an empty record with an index of its own for every function, in good order |
| `ProgramCache.JitProgramCache.ReleaseProgram` | src/fa_runtime.c:1567-1578 | the total falls by exactly the bytes of the slot, the program is gone, and the invariant on all records and tables holds on |
| `ProgramCache.JitProgramCache.EvictEntry` | src/fa_runtime.c:1617-1632 | the slot's bytes come back; it counts as spilled, and the hook holds its program, if and only if it was ready and the hook took it |
| `ProgramCache.JitProgramCache.MoveCursor` | src/fa_runtime.c:1653-1654 | the cursor goes around the ring, and nothing else changes |
| `ProgramCache.JitProgramCache.VisitSlot` | src/fa_runtime.c:1653-1665 | one turn of the eviction loop keeps the invariant and is the turn the completeness proof counts |
| `ProgramCache.JitProgramCache.ReserveBytes` | src/fa_runtime.c:1634-1668 | the loop over the ring makes room if and only if there can be room beside the protected slot's own program, and leaves that slot as it is |
| `ProgramCache.JitProgramCache.InstallProgram` | src/fa_runtime.c:2201-2208 | a program prepared from recorded opcodes takes a slot's place, with the total adjusted by exactly the difference |
| `ProgramCache.JitProgramCache.LoadEntry` | src/fa_runtime.c:1670-1700 | Ok if and only if hook, index, program and room are there, the slot then holding the program last spilled; otherwise the code of the first thing missing |
| `ProgramCache.JitProgramCache.PrepareProgram` | src/fa_runtime.c:2182-2209 | true if and only if there are opcodes, room, and something to run for each, the slot then holding their preparation |
| `ProgramCache.JitProgramCache.RecordOpcode` | src/fa_runtime.c:2163-2180 | the position is known afterwards, through the growing arrays of that one record; all programs, spilled ones too, remain preparations of what is recorded |
| `ProgramCache.JitProgramCache.MaybePrepare` | src/fa_runtime.c:2211-2239 | the slot is ready afterwards if and only if it was, its program comes back, or there is room to prepare one; it then holds that program or the preparation of the first opcodes recorded; the total rises at most up to the budget |
| `ProgramCache.JitProgramCache.LookupPrepared` | src/fa_runtime.c:2241-2270 | a hit is the preparation of the very byte of the body at the program counter, after a reload if need be |
| `JitStart.PrescanEndsLike` | src/fa_runtime.c:2116-2161 | a prescan of the module ends like the first internal body that does not walk, in order, or succeeds when all do; either way the cache stays good and under the budget |
| `JitStart.PrescanSlotDoes` | src/fa_runtime.c:2131-2156 | a function's prescan fills its index and no other; it prepares the first opcodes, one by one, and counts one program more if and only if configuration, chunk count and budget allow and all of them have something to run |
| `JitStart.PrescanFills` | src/fa_runtime.c:2116-2161 | a prescan that succeeds leaves every position of the linear decode of every internal body in the index |
| `JitStart.AttachExactly` | src/fa_runtime.c:1707-1739 | attaching under a prescan accepts a module if and only if every internal body walks, and otherwise fails with the first failure |
| `JitStart.AttachCoversRuns` | src/fa_runtime.c:1707-1739 | after an attach with a prescan, every position any job ever executes, in any function, is already in the cache |
| `JitStart.StartExactly` | src/fa_runtime.c:4763-4812 | a job start is the plain start unless it is forced to prescan a module with a body that does not walk; then the job is over with that failure before any frame exists |
| `JitStart.ForcedStartExactly` | src/fa_runtime.c:4808-4812 | for a job that would get going, a forced first start does the same as a plain one if and only if every internal body walks |
| `JitStart.DeadBytesStopPrescan` | src/fa_runtime.c:4808-4812 | departure: a function that runs to its end, with bytes behind its return that are no instruction, cannot be started under a forced prescan |
| `JitRuns.ServeKeepsCache` | src/fa_runtime.c:3604-3631 | a spill request only gives bytes back, a load request stays within the budget of the moment; both keep the cache good |
| `JitRuns.ServeDoes` | src/fa_runtime.c:3604-3631 | what a spill or load request does to its slot, and when it does nothing |
| `JitRuns.JitStepIsJobStep` | src/fa_runtime.c:4827-4911 | one turn with recording, preparing and lookup is one turn of plain dispatch, at any budget |
| `JitRuns.TurnRecords` | src/fa_runtime.c:4841-4849 | every instruction a turn decodes is in the index of its function when the turn ends |
| `JitRuns.TurnMakesHit` | src/fa_runtime.c:4841-4875 | where microcode is on without limits, a turn leaves its instruction prepared, so that the next lookup of its position hits, whatever the slot held before |
| `JitRuns.JitTransparent` | src/fa_runtime.c:4763-4920 | over whole runs and any schedule of requests, tier decisions, limits, budgets and hook failures, the job goes through the same states as without the cache, and the cache stays consistent |
| `JitRuns.NeverOverBudget` | src/fa_runtime.c:4763-4920 | while all budgets in force are positive and at most a cap, the total never rises above the cap; a cache above a newly lowered budget never grows |
| `JitRuns.JitJobsAreJobs` | src/fa_runtime.c:1707-4920 | from attach on, with or without prescans: the run is the run without the cache, total bytes are the sum of the slots, ready slots are exactly those with bytes, and none is ready and spilled |
| `Spill.PutU16` | src/fa_jit.h:41-44 | writes the two low bytes in little-endian order and no others |
| `Spill.PutU32` | src/fa_jit.h:45-50 | the same for four bytes |
| `Spill.PutU64` | src/fa_jit.h:51-55 | the loop writes the eight bytes in little-endian order |
| `Spill.GetU64` | src/fa_jit.h:63-69 | the loop reads back the little-endian number |
| `Spill.NumberThenBytes` | src/fa_jit.h:41-69 | bytes and numbers determine each other |
| `Spill.BytesThenNumber` | src/fa_jit.h:41-69 | any number that fits is read back from its bytes |
| `Spill.NumbersConcatenate` | src/fa_jit.h:41-69 | a byte stands for itself, and later bytes count 256 times as much for every byte before them |
| `Spill.WriteHeader` | src/fa_jit.c:326-335 | writes the envelope, or nothing when it does not fit |
| `Spill.HeaderRoundTrip` | src/fa_jit.c:337-368 | a buffer is accepted as a kind and payload if and only if it starts with that envelope and the payload fits |
| `Spill.EnvelopeLayout` | src/fa_jit.h:25-36 | the envelope byte by byte: the letters FYSM, version 1, the kind and the payload's length |
| `Spill.AcceptedFits` | src/fa_jit.c:337-368 | whatever is accepted declares a payload that lies inside the buffer |
| `LinearMemory.BoundsAreExact` | src/fa_ops.c:697-711 | the 64-bit bounds check lets an access through exactly when every byte of it exists |
| `LinearMemory.LoadKeepsNumber` | src/fa_ops.c:176-195 | an integer load gives the signed or unsigned number its bytes stand for |
| `LinearMemory.StoreThenLoad` | src/fa_ops.c:1313-1403 | a store changes exactly its bytes, and they read back as the low bits of the value |
| `LinearMemory.GrowthIsExact` | src/fa_ops.c:6541-6600 | a memory grows if and only if the runtime owns it and the new size is within its maximum and an int; bytes are kept, new ones are zero, refusal changes nothing |
| `LinearMemory.RequireIsInvisible` | src/fa_ops.c:723-737 | the guard of memory instructions succeeds exactly when the memory is there or the load hook works, and changes no logical contents |
| `MemoryMeaning.LoadDoes` | src/fa_ops.c:1236-1311 | a load on laid-out operands: effective address, trap exactly out of bounds, result in place of the address |
| `MemoryMeaning.StoreDoes` | src/fa_ops.c:1313-1403 | a store: exactly its bytes overwritten, or a trap that leaves the value on the stack |
| `MemoryMeaning.FillDoes` | src/fa_ops.c:3061-3093 | memory.fill: operand order, bounds, the bytes written |
| `MemoryMeaning.CopyDoes` | src/fa_ops.c:3015-3059 | memory.copy between any two memories, overlapping or shared: all bytes are read before any is written |
| `MemoryMeaning.InitDoes` | src/fa_ops.c:2945-2995 | memory.init: a missing or dropped segment traps first; otherwise bounds on both sides and the bytes copied |
| `MemoryMeaning.DropDoes` | src/fa_ops.c:2997-3013 | data.drop marks its segment, which must exist |
| `MemoryMeaning.GrowDoes` | src/fa_ops.c:6626-6675 | memory.grow answers the old page count or minus one; a 32-bit memory too large to count is refused |
| `MemoryMeaning.GrowByNothing` | src/fa_ops.c:6541-6600 | growing by nothing answers the size and changes nothing, in any memory |
| `MemoryMeaning.SizeDoes` | src/fa_ops.c:6602-6624 | memory.size answers the page count, spilled or not; a 32-bit memory too large to count is refused |
| `MemoryFaults.ShortWindow` | src/fa_ops.c:1236-1403 | a memory instruction with too few immediates traps with the window emptied and operands and memories as they were |
| `MemoryFaults.NothingBegun` | src/fa_ops.c:1313-1330 | a store without a value, and a size or growth without any memory, trap and take nothing |
| `MemoryFaults.NoSuchMemory` | src/fa_ops.c:1236-1403 | a load or store on a memory that does not exist traps and leaves its operands |
| `MemoryFaults.NoSuchMemoryInBulk` | src/fa_ops.c:2945-3093 | so do the bulk instructions, growth and size, copy for either of its memories |
| `MemoryFaults.WrongAddress` | src/fa_ops.c:1236-1403 | an address that is missing or not of the memory's kind stays, and the value of a store goes back on top of it |
| `MemoryFaults.WrongFill` | src/fa_ops.c:3061-3093 | memory.fill takes its operands from the top up to the first that is missing or of the wrong kind, and traps |
| `MemoryFaults.WrongCopy` | src/fa_ops.c:3015-3059 | memory.copy likewise, with the kinds its two memories ask for |
| `MemoryFaults.WrongInit` | src/fa_ops.c:2945-2995 | memory.init likewise |
| `MemoryFaults.WrongGrow` | src/fa_ops.c:6626-6675 | memory.grow takes its operand before it looks at its kind |
| `MemoryMeaning.LoadRows` | src/fa_ops.c:7093-7106 | opcode by opcode: how many bytes each load reads, the kind of value it pushes, and the number, with ones or zeros above it |
| `MemoryMeaning.StoreRows` | src/fa_ops.c:7107-7115 | opcode by opcode: how many bytes each store writes, and that they stand for the low bits of the operand |
| `MemoryMeaning.EncodedLoad` | src/fa_ops.c:1236-1311 | from bytes to effect, opcode by opcode: the encoding of a load, decoded and handled, pushes the number of its bytes at address plus offset or traps exactly out of bounds |
| `MemoryMeaning.EncodedStore` | src/fa_ops.c:1313-1403 | the same for a store: its bytes then stand for the low bits of the operand and all others are as before, or it traps and changes none |
| `MemoryRuns.HandleIsInvisible` | src/fa_ops.c:1236-1403 | a memory instruction on spilled memories does what it does with nothing spilled |
| `MemoryRuns.ServeIsInvisible` | src/fa_runtime.c:3633-3696 | a spill or load request changes no logical contents, whatever its hooks do |
| `MemoryRuns.SpillsAreInvisible` | src/fa_runtime.c:3633-3728 | for any program and any run, spill and load requests at any points change neither registers, outcome, nor logical memory contents |
| `MemoryRuns.SpillShowsWithoutHook` | src/fa_runtime.c:3698-3728 | the condition is exact: the guard fails if and only if the memory is spilled and the load hook does not work |
| `MemoryRuns.SpillDoes` | src/fa_runtime.c:3633-3663 | a spill request on a resident memory whose hook returns OK leaves it without bytes and marked, and the hook with exactly those it had; every other request changes nothing and has its status |
| `MemoryRuns.LoadDoes` | src/fa_runtime.c:3665-3696 | a load request on a spilled memory whose hook returns OK brings the saved bytes back; every other request changes nothing and has its status |
| `MemoryRuns.GuardDoes` | src/fa_runtime.c:3698-3728 | the guard: not spilled passes as it is, spilled with the hook's bytes; a missing hook traps and a hook's failure is passed on |
| `MemoryRuns.SpillThenLoad` | src/fa_runtime.c:3633-3696 | a spill and a load with hooks that work are a round trip |
| `MemoryObjects.MemoryObject.EnsureLoaded` | src/fa_runtime.c:3698-3728 | in place as in the function of the same name |
| `MemoryObjects.MemoryObject.Load` | src/fa_runtime.c:3665-3696 | a spilled memory gets a block with the saved bytes and loses its mark if and only if the hook works; otherwise its block is as it was |
| `MemoryObjects.MemoryObject.Spill` | src/fa_runtime.c:3633-3663 | the bytes go to the hook, then the block is freed and the mark set, if and only if the memory is resident and the hook returns OK; every refusal changes nothing |
| `MemoryObjects.MemoryObject.Grow` | src/fa_ops.c:6541-6600 | the new block holds the old bytes, then zeros |
| `MemoryObjects.MemoryObject.Write` | src/fa_ops.c:1401 | copies bytes over exactly their place |
| `MemoryObjects.MemoryObject.Read` | src/fa_ops.c:1288-1289 | reads a little-endian number |
| `MemoryObjects.MemoryObject.Serialize` | src/fa_runtime.c:3751-3786 | writes exactly the blob, or nothing when the bytes are away or the buffer is short |
| `MemoryObjects.MemoryObject.Deserialize` | src/fa_runtime.c:3788-3834 | the record after a blob is read, or unchanged after a refusal |
| `MemoryHandlers.MemoryRuntime.TakeImms` | src/fa_ops.c:531-564 | pops immediates one by one, as many as there are, in order |
| `MemoryHandlers.MemoryRuntime.TakeIndex` | src/fa_ops.c:579-606 | pops an address of the memory's type; a value of another kind goes back |
| `MemoryHandlers.MemoryRuntime.RequireAt` | src/fa_ops.c:723-737 | the guard on the records: missing memory, bytes there, or reloaded |
| `MemoryHandlers.MemoryRuntime.WriteAt` | src/fa_ops.c:1401 | a write to one memory's block is seen by the memories that share the buffer and by no other |
| `MemoryHandlers.MemoryRuntime.LoadActs` | src/fa_ops.c:1259-1310 | op_load on the linked stack and the records is the load of the model |
| `MemoryHandlers.MemoryRuntime.StoreActs` | src/fa_ops.c:1346-1403 | op_store likewise; every failure puts the value back |
| `MemoryHandlers.MemoryRuntime.InitActs` | src/fa_ops.c:2961-2995 | memory.init likewise, checks and pops in the order of the code |
| `MemoryHandlers.MemoryRuntime.FillActs` | src/fa_ops.c:3075-3096 | memory.fill likewise |
| `MemoryHandlers.MemoryRuntime.CopyActs` | src/fa_ops.c:3036-3059 | memory.copy likewise, between any two records |
| `MemoryHandlers.MemoryRuntime.GrowActs` | src/fa_ops.c:6641-6675 | memory.grow likewise |
| `MemoryHandlers.MemoryRuntime.SizeActs` | src/fa_ops.c:6609-6624 | memory.size likewise |
| `MemoryHandlers.MemoryRuntime.Handle` | src/fa_ops.c:1236-1403 | any memory instruction run on linked stack, window and records, from immediates to effect, ends in the registers, memories and status of the model's handler, reloading spilled blocks on the way |
| `MemoryHandlers.MemoryRuntime.SpillMemory` | src/fa_runtime.c:3633-3663 | a spill request on the records: the memory without bytes and marked and the hook with exactly those, or nothing changed and the status that says why |
| `MemoryHandlers.MemoryRuntime.LoadMemory` | src/fa_runtime.c:3665-3696 | a load request on the records: the saved bytes in a block again, or nothing changed and the status that says why |
| `MemoryBlobs.AcceptedExactly` | src/fa_runtime.c:3788-3834 | a buffer is accepted as a size if and only if envelope, sub-header and bytes are there, an int can size it, and the target is not a host's |
| `MemoryBlobs.BlobLayout` | src/fa_runtime.c:3739-3786 | a memory's blob byte by byte: the envelope of kind 2, the address flag in eight bytes, the size and the bytes |
| `MemoryBlobs.MemoryRoundTrip` | src/fa_runtime.c:3739-3834 | any memory of at most INT_MAX bytes comes back with bytes, size and address type; the limits are exact |
| `MemoryBlobs.BlobHooksAreFaithful` | src/fa_runtime.c:3633-3834 | hooks that store the blob and deserialize it give back the very memory that was spilled |
| `Imports.ValidateExactly` | src/fa_runtime.c:346-383 | a buffer will do if and only if it is there and is whole pages within the declared limits |
| `Imports.AttachMeetsValidate` | src/fa_runtime.c:946-1009 | attaching accepts an import exactly when rebinding would, with the same error; the memory then has the buffer's identity and size, is the host's, and keeps the declared limits |
| `Imports.AttachExactly` | src/fa_runtime.c:917-1034 | every outcome of attaching one memory: refused limits, missing keys and bindings, and for the module's own memory whole zero pages of the runtime's own if and only if an int can size them |
| `Imports.ShownContents` | src/fa_runtime.c:420-433 | the bytes of an imported memory are the first bytes of the buffer, as many as were offered |
| `Imports.BindIsUpdate` | src/fa_runtime.c:439-477 | binding changes one key only and keeps keys unique |
| `Imports.ImportedMemories.constructor` | src/fa_runtime.c:917-1040 | attached imports show, field by field, the buffer bound to their key |
| `Imports.ImportedMemories.FindBinding` | src/fa_runtime.c:316-333 | the loop finds the first binding of a key |
| `Imports.ImportedMemories.Rebind` | src/fa_runtime.c:385-437 | two loops: nothing changes unless the buffer does for every matching import; then exactly those have its identity and size, field by field, and their limits as before |
| `Imports.ImportedMemories.BindImportedMemory` | src/fa_runtime.c:439-477 | all or nothing: on error neither bindings nor memories change; on success the key and every matching import, and no other, have the buffer, and attached imports still equal their binding |
| `Imports.AttachMemories` | src/fa_runtime.c:917-1040 | every declared memory is made ready, or the first that cannot be gives the error |

## Left out

- Floating point: conversions, truncation and arithmetic are handlers or parameters (`Floats`, `Env.truncate`); the trip of a 32-bit float through a double on loads is the parameter `reload32`.
- SIMD lane arithmetic and SIMD memory handlers: only length and immediates of 0xFD instructions are modelled.
- Other plain handlers than those of linear memory (numeric, local, global, table, reference): an arbitrary deterministic function, so nothing is said about their arithmetic.
- Jobs.ExecuteJob: gives up after a number of turns, because the loop of the source need not end; the theorems quantify over that number.
- Simulation.StructuredRefinement: the structured semantics carries a loop budget for the same reason, and bodies with calls are outside, because a callee discards the caller's operands.
- JitPrograms.PreparedIsDispatch: microcode has one to four steps; every microcode row of the source has one. `JitPrograms.AgreementIsExact` shows that the hypothesis cannot be widened.
- JitRuns.JitTransparent: the hooks return the program last spilled for the function in the same attached session, or fail; a store that returns another program is outside.
- When the cache acts: heuristics for tiers, scores, probes and budgets are replaced by an arbitrary schedule; the computation of the budget itself is not modelled.
- Clearing the cache, which also empties the host-function bindings, and detaching a module.
- Host functions, dynamic libraries, trap hooks, environment variables and system probes; imported calls are an arbitrary step.
- File and module loading and the instruction stream: a parsed module is given.
- Tables, element segments, global initialisation, and the copying of active data segments at attach time.
- Imports.ImportedMemories.constructor: the module and runtime memory counts are equal, as they are after attaching; null pointers other than the three arguments of binding are not modelled.
- Allocation failure, and the sharing of partly overlapping host buffers.
- The prescan's loop over the functions of a module and the job loop with the cache switched on are functions on the cache's value (`JitStart`, `JitRuns`); the single operations on the cache are in place (`ProgramCache`).
- The control stack and the growing arrays of bindings are sequences; the opcode index, the buffer of saved operands and memory blocks are arrays.
- The two skipping routines and the decoder are functions apart from their loops (`Decoders.SkipLabels`, `Decoders.DecodeTable`): they advance a cursor through straight-line cases.
- A decode that fails halfway leaves immediates in the window; the job ends there, and that leftover is not modelled.
- The parameter that lets an `if` label preserve the operand stack is always false in the source and is left away.
- Bitwise OR of disjoint LEB128 groups is written as addition; bodies are shorter than 2^31 bytes so cursors do not wrap.
