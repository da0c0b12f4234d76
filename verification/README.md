# A verified model of the relational fuzzer

The repository tests processors against a *contract*. An executable contract model produces the trace of what
a program may leak; a taint tracker finds the input words that trace depends on; inputs are boosted by keeping
those words and drawing the others anew; and inputs of equal contract traces must look alike on the hardware.
This project models the logic that the whole tool rests on and proves what it promises:

- **the contract model** (`Machine`, `Speculation`, `UndoLogs`, `SpecRuns`, `Termination`, `BypassRuns`,
  `SpeculationSteps`, `SpecModel`): the speculative contracts as a step function over configurations with nested
  checkpoints, per-level undo logs, a window and a nesting bound. Speculation starts exactly where it should, leads
  down the wrong successor or past the latest store, and stops at fences and behind the window; every completed run
  ends with the registers, flags and memory of the sequential one, and every run completes when the sequential one
  does; undoing the logs restores the memory of every checkpoint;
- **the taint tracker** (`Taint`, `TaintSoundness`, `TwoRuns`, `Inputs`, `TaintPrecision`, `TaintTracking`,
  `SandboxedRuns`, `UnlistedRip`): the two-run theorem on which boosting depends, for the sequential and the
  conditional-branch contract, that nothing is tainted but what some observation depends on, and why the runs of
  every sandboxed program meet the precondition;
- **inputs and classes** (`Lcg`, `InputGenerator`, `Analyser`, `Boosting`): the generator has full period, its seeds
  do not repeat within a round, and every boosted input falls into the class of its original;
- **the cts dataflow analysis** (`Cts`): the in-place sweeps reach the least solution, which is the set of
  derivable facts;
- **the LLVM sandbox pass** (`SandboxCfg`): breaking strongly connected components ends in an acyclic graph;
- **the assembly generator** (`BasicBlocks`, `TestCases`, `Printing`, `FlagPatch`, `SandboxPass`): linked blocks refine
  sequences, generated functions are DAGs that survive printing and parsing, patched blocks read no undefined
  flag, sandboxed accesses stay inside and sandboxed divisions do not fault;
- **the smaller tools** (`Minimiser`, `Protolib`): the minimiser's result is minimal, message streams round-trip.

The machine is abstract: an instruction is the operand lists the tool sees plus an arbitrary effect on exactly those
operands. Where the source updates objects in place the model does too (`SpecModel.Model`,
`TaintTracking.TaintTracker`, `Cts.Analysis`, `BasicBlocks.BasicBlock`, `Protolib.File`); each of their methods
is proved equal to a pure transition, and the theorems are about those. `dafny verify dfyconfig.toml` checks
everything.

## Where the code and its purpose part

These follow the code; each has a lemma that says exactly when the expected property holds, or an input for
which it fails.

- `Machine.DecodeIsCorrect`: displacements of conditional jumps are read as unsigned numbers, so the computed
  target is the true one exactly for forward jumps.
- `UndoLogs.RecordUndoesStore`: an undo record holds eight bytes, so a wider store is taken back exactly when it
  changed nothing past its eighth byte.
- `Taint.BlocksCover`: an access that starts below the sandbox base and ends above it is tracked as touching
  nothing.
- `UnlistedRip.DecisionIsShared`: states that agree on the tainted locations decide a conditional jump alike exactly when the
  labels of all it tests are tainted. Listing RIP as a destination makes them so; the terminators that the generator
  builds do not list it, and `UnlistedRip.UnlistedRipIsUnsound` gives inputs that agree on the tainted words and have
  different traces.
- `TaintPrecision.BypassIsNotTracked`: the instruction that bypasses a store is tracked as one without accesses, because the
  checkpoint finalises it first; its accesses are tracked when it is executed again behind the rollback.
- `Termination.ExpiredWindow`: when the window expires at a conditional jump below the nesting bound, the hook still opens a
  checkpoint, so the window alone does not bound speculation. Runs end because such chains only move forward.
- `FlagPatch.ReverseOrderIsSafe`: patches are chosen for list order and inserted so that they run in reverse, which is
  safe exactly when no chosen patch leaves a live flag undefined.
- `Printing.PrintParse`: a test case is read back as printed exactly when each block without a branch is followed by
  its successor. So the one function that the generator makes is, and a test case with a second function is
  not: `Printing.SecondFunctionIsJoined`.
- `SandboxPass.MaskedStaysInside`: a mask keeps accesses inside exactly when the assist region takes what sticks out:
  always for up to eight bytes with a prologue shift of up to 60 and an assist region of a page, but without
  an assist region only up to the zeroed granule.
- `InputGenerator.BoostInputs`: with more than two inputs per class, every extension starts over from the last of the
  original inputs, so all after the first one only repeat it.
- `InputGenerator.EntropyFits`: every generated word fits its 64-bit array element exactly up to 26 bits of entropy, of the
  32 that the configuration allows; from 27 on, `InputGenerator.WordOverflows` gives a seed whose first word does not.
- `InputGenerator.GenerateOne`: the truncation meant for the register words reaches only the words behind the data.
- `Analyser.NegativeLargest`: hardware traces are compared by absolute value with a maximum that keeps its sign. If that is
  negative, nothing but zero and one power of two may occur; `Analyser.SignDecides`: the order of two traces can decide.
- `Protolib.VarintRoundTrip` and `Protolib.StreamRoundTrip`: exactly the 32-bit sizes come back, an empty message reads as the end
  of the stream, and of the larger messages only a last one whose size reads as -1 comes back.

## Model

| member | source | states |
|---|---|---|
| `Flags.ReadFlags` | src/interfaces.py:132-140 | a flag is in the read list exactly when its mode is r, r/w or r/cw |
| `Flags.WriteFlags` | src/interfaces.py:132-143 | a flag is in the write list exactly when its mode is w, r/w or r/cw |
| `Flags.UndefFlags` | src/interfaces.py:132-146 | a flag is in the undefined list exactly when its mode is undef |
| `Machine.DecodeIsCorrect` | src/model.py:1236-1332 | the decoder agrees with the instruction set on which instructions are conditional jumps, whether they jump and whether RCX is decremented; its target is right iff the jump goes forward |
| `Machine.ConditionIsTable` | src/model.py:1236-1288 | the sixteen table entries are the condition codes of the instruction set |
| `Speculation.ExecuteFrame` | src/model.py:1141-1149 | an instruction with its memory hooks has the plain effect on the machine and leaves the stacks, the window and the mode alone |
| `Speculation.HooksKeepStacks` | src/model.py:1174-1231 | every instruction keeps checkpoints and undo logs equally deep and the mode flag equal to "there is a checkpoint" |
| `UndoLogs.RecordUndoesStore` | src/model.py:1165-1172 | one record takes a store back iff the store changed nothing past its eighth byte |
| `UndoLogs.BypassIsUndone` | src/model.py:1335-1370 | rolling back a bypass restores memory iff the cancelled store was still the last write to its bytes |
| `UndoLogs.StepKeepsLogs` | src/model.py:1165-1227 | every driver move, under all three execution clauses, keeps the invariant that undoing the logs down to any level gives that checkpoint's memory |
| `UndoLogs.UndoLogsRestoreMemory` | src/model.py:1165-1231 | the invariant holds in every configuration that any run reaches |
| `SpecRuns.Resumption` | src/model.py:1290-1318 | the checkpoint of a mispredicted branch resumes exactly where executing the branch leads, RCX included |
| `SpecRuns.StepShadows` | src/model.py:1174-1227 | each move leaves the sequential run that the speculative one shadows in place or moves it by one instruction |
| `SpecRuns.SpeculationIsInvisible` | src/model.py:109-119 | a completed conditional-branch run ends with the registers, flags, memory and execution trace of a completed sequential run, for every nesting bound and window |
| `Termination.ExpiredWindow` | src/model.py:1174-1227 | past its window a level is rolled back, except at a conditional jump below the nesting bound, behind which it goes on |
| `BypassRuns.StepFollows` | src/model.py:1335-1370 | each move of a bypass run leaves the sequential run it follows in place or, if nothing is speculative and no store is bypassed, moves it by one instruction |
| `BypassRuns.BypassIsInvisible` | src/model.py:1335-1370 | a completed bypass run ends with the registers, flags and memory of a completed sequential run, for every nesting bound and window |
| `BypassRuns.MoveCosts` | src/model.py:1174-1227 | every move of an unfinished bypass run lowers a measure over levels, windows and pending stores |
| `BypassRuns.BypassTerminates` | src/model.py:279-304 | the bypass run completes whenever the sequential run does |
| `Termination.StepShrinks` | src/model.py:1174-1227 | every move of an unfinished run lowers a measure over the stack of remaining hooks and nesting slots |
| `Termination.CondTerminates` | src/model.py:279-304 | the conditional-branch run completes whenever the sequential run does |
| `SpeculationSteps.MispredictionHappens` | src/model.py:1290-1318 | a running configuration of the conditional-branch contract opens a level iff it is at a conditional jump with a displacement other than 0 and has fewer levels than the nesting bound; no other instruction does, and none under the sequential contract |
| `SpeculationSteps.MispredictionLeads` | src/model.py:1290-1318 | it goes on at the successor that the jump does not take, with the registers, flags and memory after the jump, observes the PC of the jump alone, and saves the successor that the jump takes; taken targets have the displacement unsigned |
| `SpeculationSteps.ForwardMisprediction` | src/model.py:1290-1318 | for a forward jump the two PCs are exactly its two successors, and the saved one is where executing it leads |
| `SpeculationSteps.StopsExactly` | src/model.py:1174-1187 | the emulator is asked to stop iff in speculation at an LFENCE or MFENCE or behind the window, which counts in speculation alone |
| `SpeculationSteps.FenceEndsLevel` | src/model.py:1174-1227 | either fence is observed, changes nothing, and the next move rolls its level back |
| `SpeculationSteps.BypassHappens` | src/model.py:1352-1370 | a running configuration of the bypass contract opens a level iff below the nesting bound a store is pending at an address other than 0; the level resumes at the same instruction on the memory with the store |
| `SpeculationSteps.InstructionPends` | src/model.py:1337-1350 | after an instruction below the nesting bound its last store is pending with the bytes it replaced, unless it is a CALL, and no other store is |
| `SpeculationSteps.StoreIsBypassed` | src/model.py:1335-1370 | over two moves: the instruction behind one whose last store is no CALL's runs on a memory that holds, at the bytes of that store, what was there before it, and is unchanged elsewhere |
| `SpeculationSteps.OnlyStoreIsBypassed` | src/model.py:1335-1370 | behind an instruction with a single store it runs on the memory from before that instruction |
| `SpeculationSteps.InstructionTraces` | src/model.py:779-797 | an instruction adds to the contract trace its PC, the addresses of its loads, with their values under arch, and the addresses of its stores, under every contract |
| `SpeculationSteps.InstructionIsRecorded` | src/model.py:94-119 | outside of speculation it adds its PC with its loads and stores and their values to the execution trace, in speculation nothing |
| `Taint.BlocksCover` | src/model.py:650-661 | the tracked 8-byte blocks cover the accessed bytes iff the access does not straddle the sandbox base |
| `Taint.BlocksTouch` | src/model.py:650-661 | and each of them holds a byte of the access |
| `Taint.Spread` | src/model.py:596-648 | the sources' labels are added to every target, which keeps its own, and to nothing else |
| `Taint.TrackerDepth` | src/model.py:695-709 | the tracker's checkpoint stack is always as deep as the model's |
| `Inputs.RegistersLoaded` | src/model.py:346-376 | the six words behind the memory words go to RAX, RBX, RCX, RDX, RSI and RDI, in this order |
| `Inputs.WordLoaded` | src/model.py:346-376 | the eight bytes at place j of the sandbox, read back, are word j of the input |
| `Inputs.TraceStartsWithInput` | src/model.py:807-818 | the ctr and arch traces start with the register words of the input and its flags |
| `Inputs.LoadedStatesAgree` | src/model.py:711-746 | what a taint means: an input that agrees on the marked words gives every location with a tainted label, and every one outside the input, the same initial value |
| `TwoRuns.InstructionAgrees` | src/model.py:564-677 | if all that an instruction taints is trusted and its accesses do not straddle the base, two states that agree on trusted locations make the same accesses and observations and agree again afterwards |
| `TwoRuns.TaintsGrow` | src/model.py:695-709 | no move, rollback included, removes a taint |
| `TwoRuns.StepRelated` | src/model.py:1174-1318 | every move, misprediction and rollback included, keeps two runs related level by level |
| `TwoRuns.RunsRelated` | src/model.py:564-746 | two related runs stay related with equal traces over any number of moves |
| `Inputs.TaintIsSound` | src/model.py:334-378 | if no access of the first run straddles the sandbox base, inputs that agree on the words it tainted have equal traces and complete together: seq and cond, every nesting bound, window and run length, ct, ctr and arch |
| `TaintPrecision.MoveTaints` | src/model.py:596-677 | a move taints exactly the labels on which the locations that it shows depend: RIP of control flow, the address registers of an access and, under arch, the loaded blocks |
| `TaintPrecision.MoveDepends` | src/model.py:564-661 | a location that a move writes depends on what it did before and on what each location that the move reads did, and the dependencies of all others stay; reads and writes are given by the operands and accesses |
| `TaintPrecision.LevelsDepend` | src/model.py:695-709 | a misprediction saves the dependencies it leaves, a rollback brings back those saved last, no other move touches saved ones |
| `TaintPrecision.BypassIsNotTracked` | src/model.py:695-700 | the checkpoint of a bypass finalises the bypassing instruction before its accesses are tracked, so it taints and propagates as if it made none |
| `TaintPrecision.RunTaints` | src/model.py:564-709 | after any run a label is tainted iff it was before or some move showed a location that then depended on it |
| `TaintPrecision.TaintIsPrecise` | src/model.py:564-746 | a word is tainted after n moves iff it initialises a location that was observed at the start or on which a location that a move shows then depends |
| `TaintPrecision.StartTaints` | src/model.py:216-222 | the words observed at the start are the six register words and that of the flags under ctr and arch, and none under ct |
| `TaintPrecision.MaskedLoadTaintsOneWord` | src/model.py:564-746 | under ct the load `MOV RAX, [R14 + RBX]` taints the word of RBX and no other, for every input |
| `SandboxedRuns.InvariantKeepsRunsInside` | src/model.py:1174-1318 | a state invariant that every instruction keeps on both sides of its branches, and that puts its accesses on one side of the base, holds in every run with all its speculation |
| `SandboxedRuns.MaskedIsInvariant` | src/generator.py:877-984 | for every program that leaves R14 alone, accesses memory only at R14 plus a masked register, and enters such addresses only by falling through from the mask or from where it is still masked, that is such an invariant |
| `SandboxedRuns.SandboxedStaysInside` | src/generator.py:877-984 | every run of such a program meets the precondition, for every input, nesting bound and window |
| `SandboxedRuns.SandboxedIsSound` | src/generator.py:877-984 | taint soundness for every such program that the operand lists describe |
| `SandboxedRuns.SandboxedLoadIsSandboxed` | src/generator.py:893-907 | a branch over a masked `[R14 + reg]` load is such a program |
| `SandboxedRuns.SandboxedLoadIsTrackable` | src/generator.py:893-907 | and meets the conditions on operand lists |
| `UnlistedRip.DecisionIsShared` | src/model.py:1236-1332 | all states that agree on trusted locations decide any conditional jump alike iff the labels of all that it tests are trusted |
| `UnlistedRip.ListedRipTaints` | src/model.py:596-665 | finalising a jump that lists RIP as a destination taints the labels of all that it tests |
| `UnlistedRip.UnlistedRipIsUnsound` | src/generator.py:360-373 | for a conditional terminator that lists only its flags there are inputs that agree on every tainted word and have different traces |
| `TaintTracking.TaintTracker.StartInstruction` | src/model.py:564-594 | settles the instruction before and takes over the operand lists of the new one |
| `TaintTracking.TaintTracker.FinalizeInstruction` | src/model.py:596-648 | propagates the labels of all sources to all targets and resolves the pending taints |
| `TaintTracking.TaintTracker.TrackMemoryAccess` | src/model.py:650-661 | adds exactly the blocks of the access to the sources or the targets |
| `TaintTracking.TaintTracker.Checkpoint` | src/model.py:695-700 | settles and saves the dependencies |
| `TaintTracking.TaintTracker.Rollback` | src/model.py:702-709 | restores the saved dependencies exactly and keeps the taints |
| `TaintTracking.TaintTracker.InputTaint` | src/model.py:711-746 | settles and marks word j iff it initialises the location of a tainted label: the words of the sandbox in order, then the six registers in the order in which they are loaded, then the flags |
| `SpecModel.Model.UndoChanges` | src/model.py:1211-1215 | the loop over the log, newest first, computes the undone memory |
| `SpecModel.Model.TakeCheckpoint` | src/model.py:1189-1196 | pushes registers, flags, window and successor, an empty log and the tracker's dependencies together |
| `SpecModel.Model.RollBack` | src/model.py:1198-1227 | restores the newest checkpoint in the model and the tracker together |
| `SpecModel.Model.TraceStore` | src/model.py:1165-1172 | logs, observes, remembers and writes one store |
| `SpecModel.Model.SpeculateBranch` | src/model.py:1290-1318 | checkpoints at the predicted successor and continues at the other one |
| `SpecModel.Model.SpeculateBypass` | src/model.py:1352-1370 | checkpoints at the current instruction, cancels the latest store and logs what it wrote |
| `SpecModel.Model.Move` | src/model.py:1174-1187 | one move of the object is one step of the pure model and of the tracker beside it |
| `SpecModel.Model.ExecuteTestCase` | src/model.py:279-304 | the driver loop ends in the state of the pure run, and with the tracker of that run |
| `Lcg.FullPeriod` | src/input_generator.py:61-79 | the generator returns to a state after d draws iff 2^32 divides d |
| `Lcg.DrawsAreDistinct` | src/input_generator.py:61-79 | two draws of one sequence are equal iff their distance is a multiple of 2^32 |
| `InputGenerator.MaskedBits` | src/input_generator.py:61-79 | bit n of what a draw gives is set iff 6 <= n < entropy + 6 and the bits n-6 and n+10 of the draw differ |
| `InputGenerator.WordsFit` | src/input_generator.py:61-79 | every generated word fits 64 bits up to 26 bits of entropy |
| `InputGenerator.WordOverflows` | src/input_generator.py:18-79 | from 27 bits on, the first word of one seed does not fit |
| `InputGenerator.EntropyFits` | src/input_generator.py:18-79 | every word of every seed fits iff the entropy is at most 26 bits |
| `InputGenerator.GenerateOne` | src/input_generator.py:61-86 | fails iff a word does not fit; else the data words are those of the seed, the truncation at the end reaches only the aligned tail, and the next seed is two draws per word further on |
| `InputGenerator.Generate` | src/input_generator.py:25-35 | fails iff a word of an input does not fit; else input i is made from the seed 2·size·i draws on |
| `InputGenerator.ExtendEquivalenceClasses` | src/input_generator.py:37-59 | every new input keeps the tainted words of its original and has fresh words elsewhere; the three failures are reported |
| `InputGenerator.BoostInputs` | src/fuzzer.py:266-281 | the boosted inputs are the originals and then one and the same extension again and again |
| `InputGenerator.SeedsAreDistinct` | src/input_generator.py:25-59 | all 2n seeds of a boosted round are distinct while (2n-1)·2·size < 2^32 |
| `Analyser.BuildHtraceMap` | src/interfaces.py:597-605 | measurements are grouped by hardware trace, in order, zero traces left out, with the keys in order of first occurrence |
| `Analyser.BuildEquivalenceClasses` | src/analyser.py:85-117 | the classes are exactly those contract traces with more than one input, sorted, each with all its measurements |
| `Analyser.CheckIfAllSubsets` | src/analyser.py:73-83 | true iff the absolute value of every trace is contained bitwise in the first trace of largest absolute value, sign included |
| `Analyser.AllSubsetsMeans` | src/analyser.py:73-83 | of traces that are not negative: iff one contains all the others |
| `Analyser.NegativeLargest` | src/analyser.py:73-83 | when the largest is negative: iff every trace is zero or, up to its sign, one and the same power of two |
| `Analyser.FilterViolations` | src/analyser.py:37-71 | a contract trace is reported iff its inputs have different hardware traces that, if subsets are permitted, are not all subsets; each once, in the order of the contract traces |
| `Analyser.DistinguishedMeans` | src/analyser.py:37-71 | for traces that are not negative: iff two differ and, if subsets are permitted, none contains all the others |
| `Boosting.BoostedTraceIsEqual` | src/fuzzer.py:266-281 | a boosted input completes with the contract trace of its original, whatever the new words are |
| `Boosting.NoClassIsDropped` | src/analyser.py:85-117 | with two inputs per class every class of a boosted round is effective |
| `Boosting.GeneratorExtendsRound` | src/input_generator.py:37-59 | what the generator makes from the model's taints is such an extension |
| `Boosting.BoostedPairsShareAClass` | src/fuzzer.py:266-281 | from tainting to classes: an effective class holds both input i and input n+i |
| `Boosting.BoostedRoundSharesClasses` | src/fuzzer.py:266-281 | the same for the inputs that the generator makes and extends |
| `Cts.DerivedIsFound` | src/model.py:1007-1060 | everything derivable along the successors is in every solution |
| `Cts.TargetsAreSuccessors` | src/model.py:942-953 | the targets that the graph is made of are, among the instructions, the target of a jump and what lies behind any instruction but an unconditional jump |
| `Cts.LeastSolutionIsDerivable` | src/model.py:1036-1083 | the least solution holds a register before an instruction iff a finite derivation leads to a transmitted operand |
| `Cts.Analysis.AnalyseOnce` | src/model.py:1062-1072 | one sweep; "no change" in the part of the state the snapshot really compares implies a solution |
| `Cts.Analysis.Analyse` | src/model.py:1074-1083 | ends with the least solution of the equations, equal to the derivable facts, within a bound on the sweeps; forward code needs one changing sweep |
| `SandboxCfg.CyclicMeansOnCycle` | Sandbox.cpp:30-41 | the test for a cyclic component holds iff its blocks are on a cycle |
| `SandboxCfg.FindCriticalEdge` | Sandbox.cpp:22-28 | finds an edge leaving the component iff there is one |
| `SandboxCfg.ExitExists` | Sandbox.cpp:22-28 | a cyclic component from which a return can be reached has a leaving edge |
| `SandboxCfg.RedirectKeepsReturns` | Sandbox.cpp:43-49 | rewriting a terminator to the leaving edge makes nothing new reachable and keeps every reachable block able to return |
| `SandboxCfg.BranchingShrinks` | Sandbox.cpp:43-49 | each rewrite leaves strictly fewer blocks that branch |
| `SandboxCfg.RemoveCyclesInFunction` | Sandbox.cpp:51-60 | if every reachable block can return the pass succeeds; whenever it succeeds the reachable graph is acyclic, every reachable block can return, no edge is new, and only reachable blocks on cycles have changed, so an acyclic function comes back as it was |
| `BasicBlocks.BasicBlock.InsertAfter` | src/interfaces.py:339-355 | inserting into the linked block inserts into the sequence behind the position, and the links stay inverse, if a link that the insertion does not set is null |
| `BasicBlocks.BasicBlock.InsertBefore` | src/interfaces.py:357-373 | inserting into the linked block inserts into the sequence before the position |
| `BasicBlocks.BasicBlock.Delete` | src/interfaces.py:375-397 | removes exactly the instruction, or fails iff it is not in the block |
| `BasicBlocks.BasicBlock.Iterate` | src/interfaces.py:323-327 | iteration yields the sequence |
| `BasicBlocks.BasicBlock.Length` | src/interfaces.py:329-337 | the count is the length of the sequence |
| `FlagPatch.DefinedMeansWritten` | src/generator.py:1045-1063 | a flag is defined after a block iff it was written in it with no undefining instruction behind |
| `FlagPatch.FindFlagsPatch` | src/generator.py:1142-1174 | the chosen patches cover every requested flag and undefine only live flags still to be patched, or what is left over is reported |
| `FlagPatch.FoundWhenCovered` | src/generator.py:1142-1174 | patches are found if for each requested flag some candidate writes it and leaves no live flag undefined |
| `FlagPatch.ListOrderIsSafe` | src/generator.py:1142-1174 | run in list order the chosen patches define every live flag |
| `FlagPatch.ReverseOrderIsSafe` | src/generator.py:1116-1125 | run in the order they are inserted they do so iff none leaves a live flag undefined |
| `FlagPatch.ReverseOrderCanFail` | src/generator.py:1116-1125 | two ordinary patches for which they do not |
| `FlagPatch.TracksStep` | src/generator.py:1110-1133 | walking back over an instruction with its patches keeps: the block is safe iff all patches were clean and the live flags are defined before it |
| `FlagPatch.RunOnBlock` | src/generator.py:1096-1140 | the patched block reads no undefined flag iff the chosen patches are clean; it is the block with the patches of each instruction behind it and those of the entry in front, and is unchanged iff the block reads no undefined flag as it is; fails iff some live undefined flag has no patch |
| `TestCases.GenerateFunction` | src/generator.py:223-270 | each block leads to the next one and to the chosen one of the later blocks; whatever the choices, to at most two distinct blocks, and only further on |
| `TestCases.ForwardIsDag` | src/generator.py:223-270 | such a function has no cycle, and every block is reachable from the entry and reaches the exit |
| `TestCases.SuccessorCount` | src/generator.py:223-270 | a block gets as many successors as are drawn for it, the next block first |
| `TestCases.AnyLaterBlock` | src/generator.py:223-270 | the second successor can be a block iff it is one behind the next or the exit |
| `TestCases.AddTerminators` | src/generator.py:344-376 | every block gets the branches of its successors behind the return it may have; more than two are refused |
| `Printing.ParseTestCase` | src/generator.py:533-655 | the passes of the parser compute the specified blocks, bodies, terminators and edges of all functions, with its three failures |
| `Printing.PrintParse` | src/generator.py:1242-1263 | printing and parsing gives back the same blocks, bodies, terminators and successors, function by function, iff each block without a branch is followed by its successor |
| `Printing.SecondFunctionIsJoined` | src/generator.py:636-655 | the exit of a function that another one follows is read back as falling through to it |
| `Printing.GeneratedRoundTrip` | src/generator.py:640-655 | every generated main function is read back as it was |
| `SandboxPass.DivisionIsSafe` | src/generator.py:927-984 | no surviving division faults: the divisor is not zero and the quotient fits; only the operand is accessed |
| `SandboxPass.DivisionSurvives` | src/generator.py:927-984 | a division is kept iff it is an 8-bit one not by memory at RAX or a 16- or 32-bit one whose operand does not use RDX |
| `SandboxPass.MaskedAddress` | src/generator.py:893-923 | after its instrumentation an explicit operand addresses R14 plus the masked register, and the register of an implicit one holds that address |
| `SandboxPass.MaskedStaysInside` | src/generator.py:844-851 | masked accesses of a size stay inside for every register value iff shift + size <= assist region + zeroed granule |
| `SandboxPass.SandboxedAccess` | src/generator.py:893-923 | after its instrumentation any memory operand, explicit or implicit, is inside, whatever its register held |
| `SandboxPass.SandboxedDivision` | src/generator.py:877-984 | with the division's instrumentation between mask and access, every access is inside and nothing faults |
| `Minimiser.ProbeTestCase` | src/postprocessor.py:58-98 | the cursor loop ends and leaves the file of the walked lines, those up to the last header unchanged |
| `Minimiser.FileOfLines` | src/postprocessor.py:60-80 | classifying the lines of a file loses nothing of it |
| `Minimiser.ClassifyMeans` | src/postprocessor.py:65-80 | a line is a header iff it is one up to blanks, and a change is tried at it iff it is not blank, does not start with a dot and mentions neither instrumentation nor LFENCE |
| `Minimiser.MinimisedIsMinimal` | src/postprocessor.py:167-173 | the violation is kept, the result is a subsequence with all protected lines in order, and for a monotone oracle no removable line can go |
| `Minimiser.MinimisedFile` | src/postprocessor.py:58-98 | of the file: the violation is kept, and all up to the last header; lines are only left out, and none of those that are blank, labels, directives, instrumentation or fences |
| `Minimiser.OpenTextsAreNeeded` | src/postprocessor.py:58-98 | and for a monotone oracle no other line that is left behind the header can go |
| `Minimiser.FencedIsMaximal` | src/postprocessor.py:175-180 | the violation is kept, only fences are put in, and for an oracle that fences can only silence no further line can get one |
| `Minimiser.FencedFile` | src/postprocessor.py:175-180 | of the file: the violation is kept, and all up to the last header, and only fences are put in |
| `Protolib.EncodeVarint32` | src/protolib.py:143-155 | writes the base-128 digits of the size |
| `Protolib.VarintDigits` | src/protolib.py:143-155 | byte i holds the i-th base-128 digit and, but for the last, the high bit |
| `Protolib.VarintLength` | src/protolib.py:143-155 | there are as many bytes as the value has digits |
| `Protolib.DecodeVarint32` | src/protolib.py:98-126 | reads the varint at the front, or reports the end of the file or too many bytes |
| `Protolib.DecodeVarint` | src/protolib.py:98-155 | what any written size reads back as, up to the refusal from 2^70 on |
| `Protolib.VarintRoundTrip` | src/protolib.py:98-155 | a size comes back iff it is below 2^32 |
| `Protolib.DecodeMessage` | src/protolib.py:128-141 | one message of its size, failure, or the ValueError of a size below -1, and what is left of the file |
| `Protolib.EncodeMessage` | src/protolib.py:157-163 | appends the size and the bytes of the message |
| `Protolib.StreamGivesMessages` | src/protolib.py:128-163 | reading a written stream gives exactly the messages before the first empty one |
| `Protolib.ReadsAny` | src/protolib.py:98-163 | what comes back of a first message of any size |
| `Protolib.StreamRoundTrip` | src/protolib.py:128-163 | all messages, of any size, come back iff each has a non-zero 32-bit size or is the last with a size that reads as -1 |

## Left out

- Inputs.TaintIsSound: asks that operand lists cover all reads and writes, that control flow lists RIP, that
  there are no AGEN operands, that whether an instruction accesses memory at all does not depend on its
  registers, and that no access of the first run straddles the sandbox base; undefined flags get a fixed
  value, nothing faults, and memory and registers outside the input, the aligned tail of the input array
  included, start equal.
- TaintPrecision.TaintIsPrecise: for the seq and cond contracts.
- SpecRuns.SpeculationIsInvisible: for forward conditional jumps with a displacement of at least 0.
- BypassRuns.BypassIsInvisible: not the execution trace, because a rollback resumes at an instruction already
  observed.
- UndoLogs.UndoLogsRestoreMemory: for stores of at most eight bytes and runs that start without a pending
  store; the tool keeps a pending store from one input to the next.
- Cts.Analysis.Analyse: without the cap of 1000 sweeps; whether a jump falls through is a property of the
  instruction, since the source compares an opcode list with a number.
- Boosting.BoostedPairsShareAClass: the trace digest is any function of the trace.
- SandboxCfg.RemoveCyclesInFunction: components are sets of mutually reachable blocks, not the output of
  Tarjan's algorithm, and are visited in no particular order.
- FlagPatch.RunOnBlock: flag lists are sets and blocks are sequences; a conditional terminator leaves no flag
  undefined.
- Printing.ParseTestCase: lines come classified, and the operands of an instruction are not parsed.
- SandboxPass.DivisionIsSafe: the instrumented instructions in order, not their insertion into the linked
  block; R14 is neither divisor nor address register, as the register blocklist has it; AH, BH, CH and DH are
  not generated.
- Minimiser.ProbeTestCase: the violation oracle answers the same for the same test case, and a header line
  exists; without one the cursor becomes -1, which is the last line again, and a change there joins nearly the
  whole file to itself.
- Protolib.DecodeMessage: a message is its bytes; parsing them into fields is foreign code.
- InputGenerator.GenerateOne: the arithmetic on array elements is that of integers, without the promotions of the
  array library.
- The tracker's three dictionaries are one map over labelled locations; registers carry normalised names.
- A stop request means that the current instruction is not executed; an address that holds no instruction ends
  a run segment.
- The tracers l1d, pc, memory, ctx, prot and cts as observations, the null and combined contracts, and taint
  soundness for the bypass contract.
- Bit tests, repeated string instructions, the carry-flag and bit-scan patches and the random protection
  prefix.
- The emulator, assembler and disassembler, instruction semantics, hashes, processes, sockets, files and
  reports.
- PHI repair, optimisation and fences around the LLVM pass.
