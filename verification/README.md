# Pyro: the two virtual machines, modelled and proved

Pyro is a stack bytecode with several engines that must behave identically. This Dafny
project models the Go engine (`vm/main.go`), the C engine (`vm/main.c`) and the C runtime
(`vm/pyro_runtime.c`) and proves properties of the model:

- **The machine.** `Isa` decodes the bytecode and `Assembler` is its inverse; `Machine` is one
  step of it on values, and `Opcodes` says operand by operand what each instruction does.
  `Verifier` says when code admits the per-pc annotation of operand depth, handlers and
  assigned locals that the bytecode specification asks of generated code; `Soundness`,
  `OwnRuns`, `Calls` and `Unwinding` prove what annotated code then keeps over whole runs,
  of a machine by itself or of one task among others.
- **Two engines.** `GoEngine` (heap frames, a doubling stack) and `CEngine` (fixed arrays,
  every frame's locals carved from one of them) are classes that refine the same step;
  `Lockstep` and `Engines` prove that they stay in agreement, instruction by instruction.
- **Control state on arbitrary bytes.** `Control` and `ControlLoop` assume nothing of the
  code section. Every fetch lies inside it; for each opcode they say exactly when its
  accesses lie in the operand and locals arrays, which the engine does not check; and runs
  whose accesses do keep the pc, depth, frame and handler bounds. `ControlVerified` proves
  that annotated code has only such runs.
- **Tasks.** `Tasks` is the transition system of spawn, await and sleep over every
  interleaving, `TaskTurns` what a turn does to each task, `TaskSoundness` the stack discipline of all tasks together, `Fairness` the
  deadlock and waiting properties, `Scheduler` the loop.
- **The reference-counted heap.** `RefCount` is retain and release, `RcMachine` what each
  opcode does with references, `RcNatives` the natives that build containers or take them
  apart, `RcRuns` any run of opcodes.
- **The hash map.** `MapKeys` is key equality, hash and order, `HashTable` the chains of
  linked nodes with their in-place resize, and exactly when a table acts as a map.
- **Codecs and arithmetic.** `Json` (printer and parser), `JsonDocs` (JSON texts as a grammar,
  and the round trip), `JsonBounds` and `JsonEngine`; `Dechunk` and `DechunkExact`; `Strings`;
  `Container`, `LoadedImages` and `Loader`; `DebugLines`; `Arith`. `Common`, `Bits`, `Cursor`, `Buffer` and `Decimal` are
  shared by them.

A function or predicate states what is computed, a class or method with loops is the code's
own form of it, and the method's `ensures` ties the two. Value operations (arithmetic,
containers, natives, printing) are one uninterpreted parameter of the machine, the same for
both engines. Where the code and its documentation disagree the code is followed: UNWRAP
and ASSERT raise and can be caught, although the instruction table says they abort
(`PYRO_BYTECODE.md:70,84`, `vm/main.c:707-723,888-907`), and the closure and task opcodes,
which the table leaves out, are taken from `vm/main.go`.

Two hypotheses run through the machine's theorems. `Verified` is the annotation: paths that
merge agree on depth, a LOAD reads a local that has been assigned on every path, a CALL
supplies at least what its callee may read at entry and no more than the callee has locals,
and RET executes only when its frame owns no handler, since RET does not pop handlers.
`ArityRespected` asks the same of the function values that CALLVALUE meets; neither engine
checks it, and neither looks at the declared number of parameters. `ValuesOk` is its form
for tasks: in addition a spawned function exists, and an awaited future names a task.

## Model

| member | source | states |
|---|---|---|
| Isa.Decode | vm/main.c:379-418 | an instruction is fetched only when its opcode and all its operand bytes lie inside the code, and the next pc is behind them |
| Assembler.DecodeIff | PYRO_BYTECODE.md:47-85 | bytes decode to an instruction, with the pc behind it, if and only if they are its opcode from the table followed by its operands, little-endian, offsets in two's complement |
| Assembler.ReadsBack | PYRO_BYTECODE.md:47 | decoding one instruction after the other reads back a whole assembled code section |
| Assembler.OneReading | PYRO_BYTECODE.md:47 | a code section has one reading: the same bytes are the same instructions |
| Container.LeDigit | PYRO_BYTECODE.md:10 | byte k of a number is its digit of weight 256 to the k |
| Machine.Overlay | vm/main.go:1281-1285 | a callee starts with its arguments in the leading locals and fresh locals behind them |
| Machine.SetSlot | PYRO_BYTECODE.md:135-143 | a write to a module slot is readable there, leaves every other slot as it was and makes slots in between null |
| Opcodes.StartAndHalt | vm/main.go:1050-1060 | a program starts at its entry function in one frame of fresh locals; HALT ends it |
| Opcodes.StackLimit | vm/main.c:382-387 | an instruction is executed only while at most 65532 operands are on the stack |
| Opcodes.MoveLaw | PYRO_BYTECODE.md:51-84 | CONST, TRUE, FALSE, NULL, PUSHFN, LOAD, GETGLOBAL, POP and COALESCE: which value is pushed, which operands go, and that nothing else changes |
| Opcodes.StoreLaw | PYRO_BYTECODE.md:56 | STORE sets the one local and nothing else in any frame |
| Opcodes.SetGlobalLaw | PYRO_BYTECODE.md:135-143 | SETGLOBAL sets the one slot, new slots before it being null |
| Opcodes.PrimLaw | vm/main.go:1512-1536 | a value operation gets its operands in the order they were pushed; its result takes their place, or the program aborts with its message |
| Opcodes.ClosureLaw | vm/main.go:1294-1303 | CLOSURE captures its operands in the order they were pushed |
| Opcodes.BranchLaw | PYRO_BYTECODE.md:63-64 | a jump goes to the end of the instruction plus its offset, a conditional one exactly if its operand says so, which is popped |
| Opcodes.CallLaw | vm/main.go:1276-1290 | CALL: argument j is the callee's local j, the others are fresh, the caller waits behind the call with its other operands; or the exact limit that is exceeded |
| Opcodes.CallValueLaw | vm/main.go:1304-1328 | CALLVALUE: the captured values lead the callee's locals, the arguments follow, the function value is dropped |
| Opcodes.RetLaw | vm/main.go:1329-1353 | RET drops the frame and leaves the result on top; the outermost one returns it |
| Opcodes.HandlerLaw | vm/main.c:845-862 | TRYPUSH records depths, target and slot, up to the limit; TRYPOP removes the last |
| Opcodes.RaiseLaw | vm/main.c:101-122 | THROW, a failing ASSERT and UNWRAP of null: the value raised, the message if nothing catches it, and the state the innermost handler resumes in |
| Opcodes.NoRaiseLaw | vm/main.c:707-723 | a passing ASSERT drops condition and message, UNWRAP of anything else leaves it |
| Opcodes.ClosureCalled | vm/main.go:1294-1328 | across a run: the values on the stack at a CLOSURE are the leading locals of every call of it, in that order, with the call's arguments behind them |
| Opcodes.StoreLoad | vm/main.go:1213-1219 | a local holds what was stored in it last |
| Verifier.CatchShape | vm/main.c:101-122 | the innermost handler belongs to a live frame, and resuming at its catch target with the recorded depth is again an annotated state |
| Verifier.RaiseKeepsShape | vm/main.go:1077-1095 | a raise in annotated code succeeds when any handler is open, restores exactly the recorded depth and lands in an annotated state |
| Verifier.PushShape | vm/main.go:1276-1290 | a call leaves the frames below waiting for one result at the return address |
| Soundness.RetSound | vm/main.go:1329-1353 | RET drops one frame, leaves one value above what the caller had, no handler of the callee is left, and the outermost RET is the one of the only frame |
| Soundness.TryPushSound | vm/main.c:845-859 | TRYPUSH in annotated code stays inside the code and the handler limit or aborts, and records a handler the annotation knows |
| Soundness.StepSound | PYRO_BYTECODE.md:119-124 | every instruction of annotated code other than SPAWN and AWAIT, raises included, ends in an annotated state or stops; none meets a missing operand, slot or target |
| Soundness.RunSound | PYRO_BYTECODE.md:119-124 | stack discipline of the machine by itself: every state a run of annotated code reaches has the annotated operand and handler depth, and code without SPAWN and AWAIT never gets stuck |
| OwnRuns.OwnRunShaped | PYRO_BYTECODE.md:119-124 | the same of one thread of control as it sees itself, when others may change what is shared between its turns |
| OwnRuns.MachineOwnRun | vm/main.c:370-921 | a run of the machine by itself is such a run, so what holds of these holds of it |
| Calls.ShapeBases | PYRO_BYTECODE.md:119-124 | operand depth is frame base plus annotated depth, and bases and open handlers are fixed by the return addresses from the bottom frame up |
| Calls.ExecLocal | vm/main.go:1196-1538 | one instruction disturbs no operand below those it takes, no frame but the top one, no return address and no handler but the last |
| Calls.CallKept | vm/main.go:1276-1328 | after CALL or CALLVALUE the caller lies untouched below the callee |
| Calls.RunKept | vm/main.go:1276-1353 | it stays untouched through any steps of the callee and its own callees, caught exceptions, spawns, awaits and turns of other tasks included |
| Calls.CallReturns | vm/main.go:1276-1353 | a call nets one value: the matching RET resumes behind the call with the frames and handlers of the caller and its operands below the arguments plus the result |
| Unwinding.HandlerBound | vm/main.c:845-859 | every open handler lies below the operands the running frame may still pop |
| Unwinding.StepProtects | vm/main.c:101-122 | no instruction changes anything below a handler that stays open |
| Unwinding.RunProtects | vm/main.c:101-122 | the same through any run in which the handler stays open, spawns, awaits and turns of other tasks included |
| Unwinding.TryCatch | vm/main.c:863-874 | from TRYPUSH to the raise it catches, through calls, returns and nested handlers: the catch block starts at the target with the operands, handlers and lower frames of the TRYPUSH, only the catch slot of its frame written |
| Lockstep.AgreeCatch | vm/main.c:101-122 | unwinding keeps the two engines in agreement on every local the catch block may read |
| Lockstep.EnterTwin | vm/main.go:1276-1290 | a call aborts with the same limit message in both engines or leaves agreeing frames, although one fills locals with int 0 and the other with null |
| Lockstep.RetTwin | vm/main.go:1329-1353 | returning keeps agreement of the frames below |
| Lockstep.StepTwin | vm/main.c:370-921 | one instruction other than SPAWN and AWAIT, from agreeing states, gives the same stop with the same message or agreeing states |
| Lockstep.RunTwin | vm/main.c:346-921 | lockstep over whole runs from the start of every annotated program without SPAWN and AWAIT |
| GoEngine.BaseIsUsed | vm/main.go:1010-1016 | the cached base of the next frame equals the locals of all frames below it |
| GoEngine.Engine.GrowStack | vm/main.go:1035-1048 | doubling keeps the operands, ends above the needed headroom or aborts exactly at the ceiling |
| GoEngine.Engine.Raise | vm/main.go:1077-1095 | the closure that unwinds computes the machine's raise, or reports that no handler is open |
| GoEngine.Engine.EnterFrame | vm/main.go:1276-1290 | locals limit, then frame limit, then a frame with the arguments over zero values: the machine's call |
| GoEngine.Engine.CallFunctionValue | vm/main.go:1304-1328 | captures, then arguments, lead the locals; a callee that is no function aborts |
| GoEngine.Engine.Return | vm/main.go:1329-1353 | RET of the growing-stack engine is the machine's RET |
| GoEngine.Engine.StoreGlobal | vm/main.go:1235-1249 | SETGLOBAL grows the array with nulls and writes the slot |
| GoEngine.Engine.Step | vm/main.go:1178-1538 | one round of the Go dispatch loop refines the machine step: the doubling stack is indistinguishable from one of the full size |
| CEngine.TopIsUsed | vm/main.c:562-586 | in the single locals array the end of the top frame is the sum of all frames' locals |
| CEngine.Engine.CarveLocals | vm/main.c:582-590 | filling the callee's window with null and then the arguments touches no other frame |
| CEngine.Engine.EnterFrame | vm/main.c:557-599 | the carved call is the machine's call, limits in the same order |
| CEngine.Engine.CallFunctionValue | vm/main.c:621-675 | CALLVALUE over the flat arrays is the machine's CALLVALUE |
| CEngine.Engine.Unwind | vm/main.c:104-112 | the two unwinding loops cut operands and frames to what the handler recorded |
| CEngine.Engine.RaiseException | vm/main.c:101-122 | raise_exception computes the machine's raise |
| CEngine.Engine.Return | vm/main.c:676-697 | RET over the flat arrays is the machine's RET |
| CEngine.Engine.Step | vm/main.c:370-921 | one round of the C dispatch loop refines the machine step |
| Engines.RunGo | vm/main.go:1178-1544 | on annotated code without SPAWN and AWAIT the Go loop computes the machine's run |
| Engines.RunC | vm/main.c:370-921 | on annotated code without SPAWN and AWAIT the C loop computes the machine's run |
| Engines.RunBoth | vm/main.c:346-921 | both imperative engines on the same annotated program without SPAWN and AWAIT: after any number of instructions equal signals and messages, or agreeing states |
| Control.StackIff | vm/main.c:419-921 | for each opcode, every index of the operand array it reads or writes lies in the array if and only if the operands it takes are on the stack |
| Control.LocalsIff | vm/main.c:443-697 | and every index of the locals array does if and only if the slot, the captured values and arguments, or the catch slot end inside it |
| Control.InArraysIff | vm/main.c:419-921 | both arrays together, per instruction, for arbitrary bytes and values |
| Control.FlowBounded | vm/main.c:533-697 | an instruction whose accesses are in range keeps pc in the code, the operand depth in the stack, 1 to 4095 frames, at most 4095 handlers and every frame's window inside the locals array |
| Control.CtlRun | vm/main.c:370-921 | every run of arbitrary bytes under arbitrary values keeps these bounds as long as its accesses have been in range |
| Control.AddOutside | vm/main.c:484-507 | a run can leave the arrays: ADD as the first instruction touches operands -1 and -2 |
| Control.MachineControl | vm/main.c:419-921 | every step of the machine is such a control step |
| ControlVerified.MachineInArrays | vm/main.c:419-921 | an instruction the machine executes, to whatever outcome, touches only its arrays |
| ControlVerified.RunControl | vm/main.c:370-921 | any run of the machine is a control run all of whose accesses are in range |
| ControlVerified.AnnotatedInArrays | vm/main.c:370-921 | on annotated code every instruction of every run, the last one included, touches only its arrays |
| ControlLoop.OperandLessWidth | vm/main.c:401-412 | the opcodes let through at the tail have no operands, and no operand is wider than six bytes |
| ControlLoop.Loop.Fetch | vm/main.c:379-418 | for arbitrary bytes the two-tier check admits exactly the decodable instructions, every read lies inside the code, and what each opcode reads is the width in the table |
| ControlLoop.Loop.Carve | vm/main.c:582-590 | a call touches exactly the callee's window, the slots of its captured values and arguments, and the operands it takes |
| ControlLoop.Loop.CallOp | vm/main.c:557-599 | CALL touches exactly these and writes the frame array inside its bounds |
| ControlLoop.Loop.CallValueOp | vm/main.c:621-675 | CALLVALUE of any operand, a function or not |
| ControlLoop.Loop.RetOp | vm/main.c:676-697 | RET touches the result and the frame's window |
| ControlLoop.Loop.ApplyOp | vm/main.c:484-531 | value operations, array and map literals and natives, which look at operands without asking how many there are |
| ControlLoop.Loop.Raise | vm/main.c:101-122 | the unwinding loops touch the operands and windows above the handler and its catch slot, and never empty the frame stack, even when RET has outlived a handler |
| ControlLoop.Loop.Step | vm/main.c:370-921 | one round over the four fixed arrays is the control step, touches exactly the indices it says, and keeps the bounds if these are in range |
| ControlLoop.Loop.Run | vm/main.c:346-921 | any number of rounds of a run whose accesses are in range: every bound holds and every index used lies in its array |
| Tasks.WaiterAwaits | vm/main.go:1497-1506 | a parked task re-executes its AWAIT and nothing else |
| Tasks.TurnKeepsOthers | vm/main.go:1097-1110 | a turn leaves every other task exactly as it was |
| Tasks.StepKeepsInv | vm/main.go:1456-1536 | in every interleaving a task parked on AWAIT has its pc at that AWAIT with the same future on top of its stack, and a running one is neither done nor asleep |
| Tasks.InitialInv | vm/main.go:1050-1057 | a program starts in that invariant |
| Tasks.ResultFinal | vm/main.go:1335-1343 | a stored result never changes |
| Tasks.DoneByRet | vm/main.go:1329-1343 | a task becomes done only by its own outermost RET, which stores the value it returns |
| Tasks.FinishedBetween | vm/main.go:1329-1349 | between a state where a task lives and one where it is done lies the RET that returned its result |
| Tasks.RunUndisturbed | vm/main.go:1105-1109 | a task that does not run is not changed by the steps of the others |
| Tasks.AwaitDelivers | vm/main.go:1483-1511 | await over every interleaving: the waiter finds its stack, frames, handlers and pc as it left them and receives exactly the value the awaited task's outermost RET returned in between |
| TaskTurns.SpawnLaw | vm/main.go:1456-1482 | SPAWN adds one task, numbered by the future its spawner gets: at the function's entry, no operands, no handlers, one frame whose leading locals are the captured values; every other task is as it was |
| TaskTurns.AwaitLaw | vm/main.go:1483-1511 | AWAIT replaces the future by the result if the task is done, parks on the instruction if not, and aborts on a non-future and on itself |
| TaskTurns.SleepLaw | vm/main.go:1524-1534 | sleep among several tasks leaves null and a wake time of the clock reading plus the milliseconds |
| TaskTurns.FinishLaw | vm/main.go:1329-1349 | the outermost RET of a task makes it done with the operand on top as its result |
| TaskTurns.MainLaw | vm/main.go:1329-1353 | the main task's outermost RET ends the program with its value |
| TaskTurns.OrdinaryLaw | vm/main.go:1178-1536 | any other instruction is the machine's own step, the sleep of a task that is alone included |
| TaskTurns.ReadyLaw | vm/main.go:1111-1122 | an awaiter may run once what it awaits is done, a sleeper from its time on |
| TaskTurns.SleepsLongEnough | vm/main.go:1111-1141 | over every interleaving a sleeper does not run before its time, and then finds null on top and the rest as it left it |
| TaskSoundness.TurnsSound | vm/main.go:1178-1536 | no turn of any task of annotated code is stuck, SPAWN, AWAIT, sleep and the outermost RET included |
| TaskSoundness.StepKeepsShapes | vm/main.go:1105-1159 | every step of every interleaving keeps every task in the annotated shape at its own pc: operands, frames, handlers |
| TaskSoundness.InitialShaped | vm/main.go:1050-1057 | a program starts with its one task in that shape |
| TaskSoundness.RunShaped | vm/main.go:1178-1536 | stack discipline over every run and every interleaving: each task that is not done has the annotated shape, and the next turn is not stuck |
| TaskSoundness.RunFinishesClean | vm/main.go:1329-1349 | a task's outermost RET executes with one frame, its result as the only operand and no handler open |
| TaskSoundness.TaskOwnRun | vm/main.go:1105-1109 | what one task does in a run, between any turns of the others, is a run of one thread of control |
| TaskSoundness.TaskCallReturns | vm/main.go:1276-1353 | a call made by a task nets one value, however often the task yields in between and whatever the others do |
| TaskSoundness.TaskTryCatch | vm/main.go:1077-1095 | a raise in a task enters its catch block with the operands, handlers and frames of its TRYPUSH, however often the task has yielded in between |
| Fairness.PickIffCanRun | vm/main.go:1127-1159 | pick can succeed exactly when some task is ready or asleep |
| Fairness.DeadlockBlocksAll | vm/main.go:1161-1172 | when it fails every live task awaits a live task other than itself |
| Fairness.DeadlockCycle | vm/main.go:1161-1172 | following awaiting from the main task of a deadlock reaches a cycle of length at least two |
| Fairness.WaitsExact | vm/main.go:1164-1170 | the report names a pair of tasks exactly if the first is live and awaits the second |
| Fairness.WaitsInOrder | vm/main.go:1165 | it goes through the tasks in order |
| Fairness.TwoTaskReport | vm/main.go:1164-1170 | its wording, for two tasks that await each other |
| Fairness.RunDeadlock | vm/main.go:1161-1172 | in any run, when a task yields and pick fails: every live task awaits a live other one, the report names exactly these pairs, and they form a cycle reached from the main task |
| Fairness.ReadyStable | vm/main.go:1111-1122 | a ready task stays ready until it is picked |
| Fairness.PickCloser | vm/main.go:1127-1141 | each pick brings the round-robin search strictly closer to a ready task |
| Fairness.PickedWithinOneRound | vm/main.go:1124-1141 | without spawns a ready task is outrun by fewer picks than there are tasks |
| Scheduler.Loop.IsReady | vm/main.go:1111-1122 | readiness under a monotone clock |
| Scheduler.Loop.Try | vm/main.go:1129-1138 | one round picks the first ready task after the current one, or finds none ready |
| Scheduler.Loop.Pick | vm/main.go:1127-1159 | pick succeeds if and only if a task is ready or asleep, waiting for the earliest sleeper when none is ready |
| Scheduler.Loop.Deadlock | vm/main.go:1161-1172 | the loop writes the report |
| Scheduler.Loop.Switch | vm/main.go:1105-1172 | saving the working set, picking and loading hands over to the picked task; when pick fails the program stops with the report |
| Scheduler.Loop.SpawnTask | vm/main.go:1456-1482 | spawn appends a task with its captures in its locals and pushes its future; the spawner goes on |
| Scheduler.Loop.AwaitTask | vm/main.go:1483-1511 | await pushes the result of a done task, or parks with the future back on the stack |
| Scheduler.Loop.SleepTask | vm/main.go:1524-1534 | sleep among several tasks leaves null as its result and yields until its wake time |
| Scheduler.Loop.FinishTask | vm/main.go:1329-1349 | the outermost RET of a task stores its result and yields |
| Scheduler.Loop.Step | vm/main.go:1178-1538 | one round of the loop is one turn of the transition system |
| RefCount.ReleaseConserves | vm/pyro_runtime.c:154-200 | a survivor's count drops by one for the released value and one for each reference of a freed object: freed objects' children are released exactly once, untouched objects keep their counts |
| RefCount.ReachableSurvives | vm/pyro_runtime.c:154-200 | whatever the remaining roots reach before a release is alive and unchanged after it |
| RefCount.NoExactGarbage | vm/pyro_runtime.c:154-200 | an object counted exactly by its references does not outlive the last of them |
| RefCount.Heap.Retain | vm/pyro_runtime.c:139-152 | retain adds one to the count of a live object |
| RefCount.Heap.Release | vm/pyro_runtime.c:154-200 | release terminates on every heap with the count invariant, cyclic ones included, keeps it, and frees an object only when its references were all it was counted for |
| RefCount.Heap.Dismantle | vm/pyro_runtime.c:154-200 | an object is freed once, after its children have been released |
| RcMachine.Machine.Overwrite | vm/pyro_runtime.c:360-370 | releasing the old element while it is in its slot, then writing and retaining the new one, is safe |
| RcMachine.Machine.AppendKid | vm/pyro_runtime.c:340-347 | a pushed element is shared with the array |
| RcMachine.Machine.MapSet | vm/pyro_runtime.c:255-279 | setting a map entry shares key and value, or releases the old value, and leaves every other object its children |
| RcMachine.Machine.Const | vm/main.c:422-430 | CONST shares the constant |
| RcMachine.Machine.Load | vm/main.c:443-450 | LOAD shares the local |
| RcMachine.Machine.Store | vm/main.c:451-458 | STORE releases what is in the slot, then moves the operand there |
| RcMachine.Machine.GetGlobal | vm/main.c:459-468 | GETGLOBAL shares the slot, null beyond the end |
| RcMachine.Machine.SetGlobal | vm/main.c:469-483 | SETGLOBAL grows with nulls, releases the old value, then moves the new one in |
| RcMachine.Machine.Binary | vm/main.c:484-507 | a binary operation pushes its result, an immediate or a new string, before it releases its operands |
| RcMachine.Machine.Negate | vm/main.c:508-522 | NEG and BNOT overwrite their operand without a release, which keeps every count large enough |
| RcMachine.Machine.HasKey | vm/main.c:808-820 | HAS releases the key, then the map |
| RcMachine.Machine.Call | vm/main.c:557-599 | CALL moves the arguments into the callee's locals |
| RcMachine.Machine.CallFunction | vm/main.c:621-675 | CALLVALUE of a plain function |
| RcMachine.Machine.CallClosure | vm/main.c:621-675 | CALLVALUE of a closure shares the captures into the leading locals before it releases the closure |
| RcMachine.Machine.Ret | vm/main.c:676-697 | RET releases the frame's locals while it holds the result; the outermost one releases that too |
| RcMachine.Machine.Closure | vm/main.c:606-620 | CLOSURE builds a capture array with exactly its operands |
| RcMachine.Machine.NewArray | vm/main.c:727-742 | NEWARR builds an array with exactly its operands; val_array leaves it counted at least once more than it is referenced |
| RcMachine.Machine.NewMap | vm/main.c:743-761 | NEWMAP ends with exactly the entries that setting the pairs in turn leaves, wherever their keys are found; so does val_map |
| RcMachine.Machine.SetAllNew | vm/main.c:743-761 | with keys that are all new these are the pairs as they were pushed, key before value |
| RcMachine.Machine.SetKidsFound | vm/pyro_runtime.c:263-268 | an entry that is there gets the new value, and no other changes |
| RcMachine.Machine.Index | vm/main.c:762-770 | INDEX shares the element before it releases the container |
| RcMachine.Machine.SetIndex | vm/main.c:771-781 | SETIDX leaves a surviving container with the new entry |
| RcMachine.Machine.Append | vm/main.c:790-807 | APPEND pops both operands and leaves a surviving array one element longer |
| RcMachine.Machine.Keys | vm/main.c:821-831 | KEYS shares the listed keys with a new array |
| RcMachine.Machine.Coalesce | vm/main.c:875-887 | COALESCE keeps one operand and releases the other |
| RcMachine.Machine.Raise | vm/main.c:101-122 | unwinding releases the operands and the locals of the dropped frames and moves the value into the catch slot |
| RcMachine.Machine.Throw | vm/main.c:863-874 | THROW moves its operand to the catch slot |
| RcMachine.Machine.AssertFails | vm/main.c:707-723 | a failing ASSERT raises a new text and releases its operands afterwards |
| RcMachine.Machine.UnwrapFails | vm/main.c:888-907 | UNWRAP of null pops before it raises |
| RcMachine.Machine.ReachableIsLive | vm/main.c:370-921 | between opcodes everything reachable from stack, locals, globals and constants is alive |
| RcNatives.Build | vm/pyro_runtime.c:755-887 | json_decode, split and the like build a tree of new objects, nested to any depth, in which every child is alive and no other object gets other children |
| RcNatives.BuiltStays | vm/pyro_runtime.c:154-200 | such a tree stays whole as long as its root is alive |
| RcNatives.Gather | vm/pyro_runtime.c:2680-2763 | sort, reverse, slice and concat share exactly the picked elements of their operands with a new array |
| RcNatives.Rearrange | vm/pyro_runtime.c:2686-2694 | sort moves the elements of its copy around without touching a count |
| RcNatives.WithoutCount | vm/pyro_runtime.c:307-328 | unlinking a pair takes exactly its key's and its value's references out of the map |
| RcNatives.Remove | vm/pyro_runtime.c:307-328 | remove unlinks the entry, then releases its key and its value; the map is left with the other entries |
| RcNatives.MadeStays | vm/main.c:832-844 | what a native has made outlives the release of its operands |
| RcNatives.Native | vm/main.c:832-844 | NATIVE makes its result, releases its operands and pushes the result |
| RcRuns.Do | vm/main.c:370-921 | one opcode of any kind keeps every count at least as large as the references, and every object that is counted once too often stays alive and so; NEWARR, NEWMAP and KEYS each leave such an object on the stack |
| RcRuns.OvercountedSlack | vm/pyro_runtime.c:115-137 | counted once too often means alive with a count above the number of references to it |
| RcRuns.GoOn | vm/main.c:370-921 | a run from any state keeps the counts and frees no object that was counted once too often when it began, whether the program can reach it or not |
| RcRuns.Run | vm/main.c:346-921 | no run frees an object that is still reachable: calls, closures, natives, container overwrites and removals, and exceptions in any order |
| MapKeys.KeyEqIff | vm/pyro_runtime.c:489-504 | on integer and string keys, mixed in any way, the runtime's equality is equality of texts as C strings, so an equivalence |
| MapKeys.IntHash | vm/pyro_runtime.c:205 | both halves of an integer count for its hash: it hashes like its complement, and a 32-bit one as itself |
| MapKeys.ConfusedDoubled | vm/pyro_runtime.c:236-253 | keys a table tells apart are told apart after a resize |
| MapKeys.ThirteenConfused | vm/pyro_runtime.c:203-224 | 13 and "13" are equal and share a bucket of the initial 16, but not of 32 |
| MapKeys.OneNeverConfused | vm/pyro_runtime.c:203-224 | 1 and "1" are equal and share a bucket of no table |
| MapKeys.NamesTellIff | vm/pyro_runtime.c:489-504 | texts of NUL-free keys differ exactly if no string key is the decimal text of an integer key |
| MapKeys.CanonicalUnique | vm/main.go:598-607 | there is one listing in the order of whole texts, Go's, of keys whose texts differ |
| MapKeys.LessIff | vm/pyro_runtime.c:379-381 | one text is before another exactly if it is a proper prefix of it or smaller where they first differ |
| MapKeys.LessUptoNul | vm/pyro_runtime.c:379-381 | strcmp, which stops at a NUL, orders two texts as Go does if it tells them apart |
| MapKeys.ByNameCanonical | vm/pyro_runtime.c:379-381 | so a listing of keys whose texts differ as C strings is in the one order exactly if it is in the other |
| MapKeys.QsortCanonical | vm/pyro_runtime.c:3408-3413 | qsort under strcmp of any listing of the keys is in the order of C strings, and in textual order if these tell the keys apart |
| MapKeys.KeysAgree | vm/main.go:598-607 | keys(m) is equal in the two engines if the texts differ as C strings, keys with a NUL included, whatever order each engine presents its keys in and whatever its sort does with ties |
| MapKeys.ByNameUniqueIff | vm/pyro_runtime.c:3408-3413 | qsort's order leaves one listing of the keys if and only if their texts differ as C strings |
| MapKeys.NulKeysEitherWay | vm/pyro_runtime.c:379-381 | two keys on which keys(m) may differ: Go lists "a\0a" before "a\0b", and to C either order is sorted |
| HashTable.OneNodePerKey | vm/pyro_runtime.c:255-279 | no key occurs twice in a table |
| HashTable.MovedNodes | vm/pyro_runtime.c:236-253 | the resize moves exactly the nodes of a chain |
| HashTable.RehashedNodes | vm/pyro_runtime.c:236-253 | after the resize the table has exactly the nodes it had |
| HashTable.RehashedHoused | vm/pyro_runtime.c:236-253 | and each sits in the bucket its key hashes to under the new capacity |
| HashTable.MoveChain | vm/pyro_runtime.c:242-250 | re-linking a chain node by node through saved next pointers loses none |
| HashTable.Rehash | vm/pyro_runtime.c:236-253 | the resize re-links all chains in place into a table twice the size |
| HashTable.Walk | vm/pyro_runtime.c:262-269 | the walk down a chain finds the first node the runtime's equality takes for the key, if there is one |
| HashTable.FoundOrAbsent | vm/pyro_runtime.c:255-305 | which node that is: the one of the key itself, or of the only key the table takes it for |
| HashTable.Unlink | vm/pyro_runtime.c:311-319 | unlinking skips exactly the node |
| HashTable.RcMap.constructor | vm/pyro_runtime.c:227-234 | a new table is the empty map |
| HashTable.RcMap.Resize | vm/pyro_runtime.c:236-253 | the resize keeps the map, the size and the nodes and doubles the capacity |
| HashTable.RcMap.Set | vm/pyro_runtime.c:255-279 | set is the map update at the key the table takes it for after the resize, with size counting the nodes and at most three quarters of the capacity |
| HashTable.RcMap.Put | vm/pyro_runtime.c:259-278 | overwriting the value in place or adding a node at the head of its bucket |
| HashTable.RcMap.Get | vm/pyro_runtime.c:281-292 | get is the map lookup of the key the table takes it for, null for a missing key |
| HashTable.RcMap.Has | vm/pyro_runtime.c:294-305 | has is membership of that key |
| HashTable.RcMap.Remove | vm/pyro_runtime.c:307-328 | remove deletes that key |
| HashTable.RcMap.KeysSorted | vm/pyro_runtime.c:3394-3415 | keys lists exactly the map's keys in the order of C strings, and in textual order if these tell them apart, whatever the layout |
| HashTable.GrownWhenFull | vm/pyro_runtime.c:256-258 | over any operations the table is at most three quarters full, and has grown only when it was three quarters full |
| HashTable.ActsAsMapIff | vm/pyro_runtime.c:227-328 | any sequence of operations is answered, and changes the contents, as by a mathematical map if and only if no operation is taken to another key (other than to read a null) |
| HashTable.NamesTellUnharmed | vm/pyro_runtime.c:227-328 | so it is for a caller whose keys have different texts as C strings, of whatever kinds they are |
| HashTable.ThirteenFails | vm/pyro_runtime.c:294-305 | it fails: with 13 in a new table, has("13") is true |
| HashTable.Play | vm/pyro_runtime.c:227-328 | the linked table plays any sequence of operations so, through every resize, and keys() lists its keys in the order of C strings, in textual order if these tell them apart |
| Decimal.IntTextValue | vm/pyro_runtime.c:392-394 | the decimal text of an integer reads back as the integer |
| Decimal.IntTextInjective | vm/pyro_runtime.c:392-394 | different integers have different texts |
| JsonDocs.CharsRead | vm/pyro_runtime.c:761-788 | a string literal is read byte by byte, each plain or escaped, whatever mixture its writer chose; an unknown escape stands for its backslash |
| JsonDocs.LiteralRead | vm/pyro_runtime.c:761-788 | it ends behind its quote, or where the text breaks off |
| JsonDocs.SignedRead | vm/pyro_runtime.c:790-805 | a signed digit string is read as its number, or as the nearest int64 |
| JsonDocs.DocReads | vm/pyro_runtime.c:867-887 | every spelling of a value, with any whitespace between its tokens and at any depth, parses to that value with the cursor right behind it |
| JsonDocs.ItemsRead | vm/pyro_runtime.c:807-832 | the array loop reads the elements in order, up to its bracket or to where that is missing |
| JsonDocs.MembersRead | vm/pyro_runtime.c:834-865 | the object loop reads the members, of two with one key the later, with or without a colon, up to its brace or to where that is missing |
| JsonDocs.UnclosedArray | vm/pyro_runtime.c:807-832 | an array that the text breaks off has the elements there are |
| JsonDocs.UnclosedObject | vm/pyro_runtime.c:834-865 | and an object the members |
| JsonDocs.EncodeIff | vm/pyro_runtime.c:629-753 | a text is the encoding of a value exactly if it is its spelling without whitespace and with no escape or sign that could be left out, keys in order |
| JsonDocs.EncodeScans | vm/pyro_runtime.c:629-753 | from the printed text alone: no whitespace outside literals, inside them a backslash only before a quote, a backslash, n, r or t, and never a raw tab, newline or return |
| JsonDocs.ScanOneLine | vm/pyro_runtime.c:629-653 | so the text is one line |
| JsonDocs.ValueParses | vm/pyro_runtime.c:655-887 | an encoding anywhere in a text parses to its value with the cursor right behind it |
| JsonDocs.RoundTrip | vm/pyro_runtime.c:655-753 | parsing the encoding of any float-free value returns it and uses the whole text |
| JsonDocs.EncodeInjective | vm/pyro_runtime.c:655-753 | two values with one encoding are equal |
| JsonBounds.StringLeavesIff | vm/pyro_runtime.c:761-788 | the string parser steps over the end of the text if and only if the string is still open there, behind an odd number of backslashes |
| JsonBounds.ValueLeavesIff | vm/pyro_runtime.c:867-887 | the parser does if and only if it comes to such a string |
| JsonBounds.ValueStays | vm/pyro_runtime.c:867-887 | a text that ends in an even number of backslashes, none included, never takes it outside |
| JsonBounds.LoneBackslash | vm/pyro_runtime.c:766-781 | a quote and a backslash do |
| JsonEngine.EscapeString | vm/pyro_runtime.c:629-653 | the escaped text fits the buffer of twice the length plus three |
| Json.OrderUnique | vm/pyro_runtime.c:704-717 | the field order is unique, so every sort prints the same text |
| JsonEngine.ToJson | vm/pyro_runtime.c:655-753 | the growing buffers always have room for what is appended, and hold the encoding |
| JsonEngine.ParseString | vm/pyro_runtime.c:761-788 | the cursor loop with its doubling buffer computes the string parser |
| JsonEngine.ScanNumber | vm/pyro_runtime.c:790-805 | the number scan decides between integer and float as the parser function does |
| JsonEngine.ParseJson | vm/pyro_runtime.c:867-887 | the recursive-descent parser computes the parser function for every text |
| JsonEngine.PrintAndParse | vm/pyro_runtime.c:655-887 | printing and parsing back returns the value |
| Dechunk.ReadSize | vm/pyro_runtime.c:1178-1183 | the size never leaves size_t, and the size plus two is exact |
| Dechunk.HttpDechunk | vm/pyro_runtime.c:1169-1200 | the loops compute the decoder for arbitrary bytes: 1 with the body, 0 or -1 |
| Dechunk.VerdictFinal | vm/pyro_runtime.c:1169-1200 | once it has answered complete or malformed, more bytes change nothing |
| Dechunk.MessageDecodes | vm/pyro_runtime.c:1169-1200 | from any chunk of a well-formed message on, the rest decodes to the rest of the body |
| Dechunk.WholeMessage | vm/pyro_runtime.c:1168-1200 | for any body, any split into chunks, any extensions and trailers: complete, exactly the body, nothing left over |
| DechunkExact.HexNamed | vm/pyro_runtime.c:1179-1183 | the digits of a size, in either case, have their values |
| DechunkExact.HexOnly | vm/pyro_runtime.c:1179-1183 | and no other byte is a digit |
| DechunkExact.HexValueSnoc | vm/pyro_runtime.c:1178-1183 | the first digit weighs most |
| DechunkExact.NoLine | vm/pyro_runtime.c:1174-1176 | without a whole line the answer is more |
| DechunkExact.RoundLaw | vm/pyro_runtime.c:1169-1200 | one chunk of arbitrary bytes: malformed exactly if its line starts with no digit, its size is beyond the limit, or no line end follows its data; else more, complete or the next chunk |
| DechunkExact.CompleteIsMessage | vm/pyro_runtime.c:1168-1200 | complete is answered to well-formed messages alone, with their body |
| Dechunk.ProperPrefix | vm/pyro_runtime.c:1168-1200 | every proper prefix of it asks for more bytes and is never an error |
| Strings.JoinSplit | vm/pyro_runtime.c:3180-3250 | join undoes split |
| Strings.SplitSeparates | vm/pyro_runtime.c:3211-3218 | each part but the last, followed by the separator, has it first at its end, and the last has none |
| Strings.PartsHaveNoSeparator | vm/pyro_runtime.c:3211-3218 | no part contains the separator |
| Strings.SplitJoinIff | vm/pyro_runtime.c:3180-3250 | split undoes join for exactly such parts |
| Strings.ReplaceIsJoinSplit | vm/pyro_runtime.c:2440-2462 | replacing is splitting at the old text and joining with the new |
| Strings.SplitStr | vm/pyro_runtime.c:3209-3219 | the cursor loop computes split |
| Strings.JoinArr | vm/pyro_runtime.c:3222-3250 | the growing buffer always has room, and holds the join |
| Strings.ReplaceStr | vm/pyro_runtime.c:2415-2462 | both branches of replace stay inside their buffers and compute the replacement |
| Strings.ReplaceEmpty | vm/pyro_runtime.c:2424-2438 | the buffer for an empty old text is computed to the byte |
| Arith.AddAgree | vm/main.go:2327-2332 | wrap-then-test and bound-then-add reject exactly the sums outside int64 and otherwise return the sum |
| Arith.SubAgree | vm/main.go:2333-2338 | the same for subtraction |
| Arith.GoMulChecked | vm/main.go:2339-2347 | dividing the wrapped product back, with its two special cases, is the exact overflow test |
| Arith.CMulChecked | vm/pyro_runtime.c:3276-3290 | so are the four division bounds |
| Arith.MulAgree | vm/pyro_runtime.c:3276-3290 | the formulations of multiplication agree on all int64 pairs |
| Arith.DivMod | vm/pyro_runtime.c:3350-3364 | a quotient exists except by zero and for the one overflowing pair, and quotient and remainder recompose the dividend with the dividend's sign |
| Bits.XorTwice | vm/pyro_runtime.c:618-626 | exclusive or with the same key undoes itself |
| Container.DecodedEncoded | vm/main.go:869-876 | the rolling decoder undoes the rolling encoder |
| Container.EncodedExample | vm/main.go:869-876 | three bytes of it worked out |
| Container.ConstLoads | vm/main.c:184-219 | every kind of constant loads as stored, string lengths by version |
| Container.FuncLoads | vm/main.c:228-238 | a function entry of nine bytes loads as stored |
| Container.LoadFuncPart | vm/main.c:221-238 | the nine-bytes-per-entry check covers every read of the table, the parameter count included |
| Container.AssetsLoad | vm/main.c:269-286 | assets load as stored |
| Container.TailLoads | vm/main.c:252-305 | optional sections load as stored, present exactly when flagged |
| Container.LoadSerialised | PYRO_BYTECODE.md:12-35 | for every program, version 2 or 3, encoded or not, with any trailing bytes: loading its serialisation returns it |
| LoadedImages.LoadedStorable | vm/main.c:158-308 | whatever loads is an image the format can hold: names, entry function and entry points in range, every number in its field, and the file used up to exactly the length of its serialisation |
| LoadedImages.LoadedAgain | vm/main.c:158-308 | writing a loaded image again gives a file that loads as the same image |
| LoadedImages.CountsChecked | vm/main.c:175-226 | a count for which too few bytes are left is refused as such |
| LoadedImages.SampleBytes | PYRO_BYTECODE.md:12-35 | one image with every section, byte by byte: order, widths, tags and flags of the format |
| Loader.XorDecode | vm/pyro_runtime.c:618-626 | the in-place loop decodes the whole section |
| Loader.File.Read | vm/main.c:131-156 | a read happens if and only if it fits the file |
| Loader.File.ReadFuncs | vm/main.c:221-238 | the table loop stays inside the bytes checked for |
| Loader.File.LoadProgram | vm/main.c:158-308 | the loader computes the load function on every file, every read inside it, every fault reported |
| Loader.StoreAndLoad | vm/main.c:158-308 | storing and loading returns the program |
| DebugLines.GetLineNumber | vm/main.c:67-78 | the scan returns the line of the last entry reached, 0 before the first |
| DebugLines.LineAt | vm/main.go:698-710 | the loop computes the binary search |
| DebugLines.SameEntryIff | vm/main.go:698-710 | on any table, the binary search names the entry the scan names if and only if every probed entry at or before the pc is one the scan reaches |
| DebugLines.SameEverywhereIff | vm/main.go:698-710 | and for every pc if and only if the table is searchable, a condition on its pcs alone |
| DebugLines.InOrderSearchable | vm/main.go:698-710 | tables in pc order are |
| DebugLines.SameLine | vm/main.c:67-78 | the two engines on any table: the same line under these conditions, and only then if lines tell entries apart |
| DebugLines.OutOfOrderDiffers | vm/main.go:698-710 | a table out of order on which they differ |
| DebugLines.OutOfOrderAgrees | vm/main.go:698-710 | and one on which they agree |

## Left out

- Sockets, the HTTP client and server around the chunked decoder, files, processes, the clock's reading, random numbers, the command line and the profiler: input and output. Time is a monotone clock with arbitrary readings.
- Signatures, the policy gates, the interactive debugger, the C++ engine (it repeats the C engine) and the C# engine.
- Floats: a value carried along and never computed with. JSON floats keep the text they were parsed from.
- Where the engines' value operations themselves differ, such as bool and int equality, the length of null, and messages longer than the C engine's fixed error buffers: both engines are given the same operations here.
- NEG of the smallest integer and shift counts outside 0 to 63, which have no defined result in C.
- SPAWN and AWAIT in the C engine, which aborts on them; lockstep covers code without them.
- Ill-formed operand use (underflow, slots outside the frame, more arguments than locals) in the machine's theorems: `Verified` excludes it. `Control` covers it for arbitrary bytes as far as array bounds go; what values the slots hold is not part of it, and a function value's index is any natural number.
- Engines.RunGo: for annotated code without SPAWN and AWAIT, which the loop itself does not ask for; `Scheduler` has those opcodes.
- Engines.RunC: for annotated code without SPAWN and AWAIT, on which the engine aborts; the loop on other code is in `ControlLoop`.
- `Scheduler.Loop` executes ordinary instructions by the shared step, on a sequence of operands per task; a task's own growing stack, kept through save and load, is not part of it. `GoEngine` has the growing stack of one.
- `CEngine` and `RcMachine` are separate models of the same opcodes: the first keeps values and no counts, the second keeps references and counts and leaves immediate values indistinct.
- RcMachine.Machine.Binary: does not say which result an operation gives, nor `RcNatives` which elements sort and slice pick or where an equal key is found; these are parameters, and every statement holds for all of them.
- String objects and their contents are one cell each in `RefCount`; allocation failure is not part of this model.
- HashTable.Walk: bool, float and null keys, whose equality with other kinds is not transitive.
- HashTable.RcMap.Set: the same.
- HashTable.RcMap.Put: the same.
- HashTable.RcMap.Get: the same.
- HashTable.RcMap.Has: the same.
- HashTable.RcMap.Remove: the same.
- HashTable.RcMap.KeysSorted: the same.
- HashTable.Play: the same.
- qsort and sort.Slice are any functions that return a sorted permutation; strstr, strtoll and realloc are modelled by what they promise.
- JsonEngine.ParseString: gives no result where the C code reads on behind the terminator; `JsonBounds` says exactly when.
- JsonEngine.ParseJson: the same.
- The empty separator of split, which walks UTF-8 sequences, and the case-changing and trimming natives.
- Loader.File.LoadProgram: files of 2 GiB and more, whose offsets do not fit the loader's int; embedded names are kept in file order, without the re-sorting after each one.
- The Go loader: it reads files with both assets and permissions in another order than the layout says.
- The engine loops are given a number of instructions to execute, since a Pyro program need not end; every statement holds for every such number.
