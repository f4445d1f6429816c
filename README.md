# TinyGPU in Dafny

TinyGPU is a small educational GPU simulator. A `TinyGPU` engine holds a grid of
threads: `num_blocks` blocks of `threads_per_block` threads each. Every thread has
the following state:

- a row of int32 registers
- a program counter
- an active flag
- a flags cell
- two barrier wait flags: global `sync_waiting` and per-block `sync_waiting_block`

The engine also holds one global int32 memory and one shared-memory row per
block. Five history lists record a snapshot of registers, memory, pc, flags and
shared memory after every cycle.

A cycle (`step`) does four things in order:

1. It runs every active thread until its pc moves, it waits at a barrier, or it
   falls off the program.
2. It releases the global barrier.
3. It releases the per-block barriers.
4. It records a snapshot.

The instruction set is a dispatch table of five handlers: SET, ADD, MUL, LD and
ST. Each handler makes one checked write into a register or a memory cell. A
two-pass assembler turns `.tgpu` text lines into a program of
`(opcode, operands)` pairs plus a label table.

The project is organised as follows:

- `py.dfy` (`Py`): the Python vocabulary the model needs. This is `Option`,
  `Result` and the exceptions raised, the int32 range, and Python's negative
  indexing and slice clamping.
- `pystr.dfy` (`PyStr`): the `str` builtins the assembler uses, and `int()` on
  a string. These are `strip`, `split`, `upper`, `isdigit`, `lstrip('-')` and
  `endswith(':')`.
- `store.dfy` (`Store`): operands, instructions, the engine state as a value
  (`Gpu`), its well-formedness invariant, and the five history lists as one
  record.
- `instructions.dfy` (`Instructions`): `_resolve`, the five handlers and the
  dispatch table, as functions from a state to a new state or an exception.
- `engine.dfy` (`Engine`): every engine operation as a function on `Gpu`. It
  serves as the specification of the class.
- `engine_lemmas.dfy` and `instruction_lemmas.dfy`: the properties of those
  functions.
- `tinygpu.dfy` (`TinyGpu`): the engine as the class `TinyGPU`. Its state lives
  in arrays: `array2` for registers and shared memory, `array` for memory and
  the per-thread vectors. The history and program are `seq` fields. Every
  method updates the arrays in place. Each method ensures that its new state,
  read back as a `Gpu`, is what the matching `Engine` function gives for the
  old state. The handlers are the module-level methods `OpSet` through `OpSt`.
- `assembler.dfy` (`Assembler`): comment stripping, the label pass (a method
  with a loop), operand classification, `_parse_args` (a loop) and the program
  pass (a loop). Both passes are tied to functions over the classified lines,
  and end-to-end lemmas relate the label table to the program.

Exceptions are modelled, not excluded. An operation that raises returns the
exception: `Result.Err`, or `Outcome` with an error. For `step`, `run` and
`load_kernel`, it also returns the state reached when the exception was raised,
because writes made before the faulting instruction persist.

## Model

| member | source | states |
|---|---|---|
| Engine.New | src/tinygpu/gpu.py:7-53 | construction succeeds exactly when no size is negative and there is a register whenever there is a thread, and then gives `Engine.Init`; a negative size raises ValueError, threads without registers raise IndexError |
| TinyGpu.TinyGPU.constructor | src/tinygpu/gpu.py:7-53 | the new engine is `Engine.Init`, the state `Engine.New` accepts; see EngineLemmas.InitSeeds for what that state is |
| EngineLemmas.InitSeeds | src/tinygpu/gpu.py:7-53 | one block of all threads, zero shared size, empty history; every thread active at pc 0 and not waiting; R7 holds the thread id (R0 with fewer than 8 registers); every other register is zero |
| TinyGpu.InitialRegisterFile | src/tinygpu/gpu.py:48-53 | the fresh register array holds exactly the seeded register file `Engine.InitialRegisters` |
| Engine.ResizedRows | src/tinygpu/gpu.py:67-77 | the resized register file has the new thread count; rows below the old count keep their values and new rows are zero |
| Engine.WithArgs | src/tinygpu/gpu.py:314-319 | register i of a row becomes args[i] for i < len(args); the other registers are kept |
| Engine.FirstOverflow | src/tinygpu/gpu.py:316-319 | finds the first argument written to a register that does not fit int32; every earlier one fits; None means all written arguments fit |
| Engine.RunThread | src/tinygpu/gpu.py:145-166 | the inner loop only changes the running thread: every other thread is untouched, and the configuration, program, shared memory and history are unchanged |
| Engine.ExecuteThreads | src/tinygpu/gpu.py:129-166 | inactive threads are untouched, and only per-thread state, registers and memory change |
| Engine.RunUnfolds | src/tinygpu/gpu.py:203-207 | `run(k)` with k > 0 and some thread active takes one step, stops if it raised, and otherwise runs k-1 more cycles |
| TinyGpu.TinyGPU.SetGrid | src/tinygpu/gpu.py:55-97 | the array state after `set_grid` is `Engine.SetGrid` of the old state; memory is not reallocated and shared memory is |
| TinyGpu.TinyGPU.SeedRegisters | src/tinygpu/gpu.py:88-97 | R5 and R6 of every thread are set to `tid // tpb` and `tid % tpb` in place; nothing else changes |
| TinyGpu.TinyGPU.ResizeThreads | src/tinygpu/gpu.py:64-83 | new register, pc, active, flags and wait arrays of the new thread count: rows copied where they fit, pc and flags zero, all threads active, none waiting |
| TinyGpu.TinyGPU.ConfigureGrid | src/tinygpu/gpu.py:60-86 | records nb, tpb and the shared size and allocates a zeroed nb x s shared grid |
| EngineLemmas.SetGridConfigures | src/tinygpu/gpu.py:60-96 | with tpb > 0: nb*tpb threads, a zero nb x s shared grid, R5 = tid // tpb and R6 = tid % tpb where those registers exist; memory, history and program unchanged |
| EngineLemmas.SetGridThreads | src/tinygpu/gpu.py:64-83 | registers other than R5/R6 keep their values for surviving threads and are zero for new ones; on a resize pc, active, flags and both wait vectors are reset, and without one they are untouched |
| EngineLemmas.SeededTwice | src/tinygpu/gpu.py:90-96 | seeding R5/R6 twice is seeding once |
| EngineLemmas.SetGridIdempotent | src/tinygpu/gpu.py:55-97 | `set_grid` twice with the same arguments equals `set_grid` once |
| EngineLemmas.SetGridShape | src/tinygpu/gpu.py:55-97 | history entries stay shaped like the state when the history is empty or the grid shape does not change |
| TinyGpu.TinyGPU.LoadProgram | src/tinygpu/gpu.py:99-110 | the array state after `load_program` is `Engine.LoadProgram` of the old state |
| TinyGpu.TinyGPU.ResetThreads | src/tinygpu/gpu.py:102-105 | every pc is 0, every thread active, both wait vectors all false |
| EngineLemmas.LoadProgramResets | src/tinygpu/gpu.py:99-110 | the program and labels (`{}` for None) are stored; all pcs are 0, all threads active and not waiting, history empty; registers, memory, flags, shared memory and grid unchanged |
| TinyGpu.TinyGPU.WriteArgs | src/tinygpu/gpu.py:313-319 | the in-place argument loop gives exactly `Engine.WriteArgs`, including the OverflowError of an argument outside int32 |
| TinyGpu.TinyGPU.LoadKernel | src/tinygpu/gpu.py:291-322 | `load_kernel` is `Engine.LoadKernel`: set_grid, arguments, load_program |
| EngineLemmas.LoadKernelArgs | src/tinygpu/gpu.py:291-322 | after set_grid with the given or current tpb, argument i is in register i of every thread; pcs 0, threads active, history empty, flags as set_grid left them, labels stored (`{}` when absent); it fails exactly when a written argument leaves int32, and then with OverflowError |
| TinyGpu.TinyGPU.RunThread | src/tinygpu/gpu.py:139-166 | the `while True` loop of one thread on the arrays gives exactly `Engine.RunThread` (outcome and exception) |
| TinyGpu.TinyGPU.RunInstruction | src/tinygpu/gpu.py:146-166 | one turn of that loop: when it stops, the outcome is `Engine.RunThread`'s; when it goes on, pc moved one on inside the program and the rest of the loop gives the same outcome |
| TinyGpu.TinyGPU.ExecuteThreads | src/tinygpu/gpu.py:129-166 | the loop over threads gives exactly `Engine.ExecuteThreads` |
| EngineLemmas.HandlersKeepControl | src/tinygpu/instructions.py:64-70 | no handler of the table changes pc, active, flags, wait flags, program or history |
| EngineLemmas.RunThreadDrains | src/tinygpu/gpu.py:145-166 | a thread that is not waiting runs every instruction from its pc to the end of the program and is deactivated with pc at the end, unless a handler raises |
| EngineLemmas.RunThreadWaiting | src/tinygpu/gpu.py:150-163 | a thread already waiting executes its current instruction once and stops with pc unmoved |
| EngineLemmas.RunThreadSkipsUnknown | src/tinygpu/gpu.py:151-166 | an opcode absent from the table only advances pc |
| EngineLemmas.RunThreadHalts | src/tinygpu/gpu.py:146-148 | a pc outside [0, len(program)) deactivates the thread and changes nothing else |
| EngineLemmas.ExecFromDrains | src/tinygpu/gpu.py:139-166 | with all active threads ready, every active thread from tid on ends deactivated at the program's end; inactive ones keep their pc |
| EngineLemmas.StepDrains | src/tinygpu/gpu.py:112-127 | with all threads ready, one step leaves no thread active, records one cycle, and puts every active thread's pc at the program's end |
| EngineLemmas.RunDrains | src/tinygpu/gpu.py:203-207 | so `run(m)` from such a state is one step |
| TinyGpu.ReleaseWaiting | src/tinygpu/gpu.py:173-176 | the release loop over a thread range gives `Engine.Release`: active waiting threads move one on and stop waiting |
| TinyGpu.TinyGPU.HandleGlobalBarrier | src/tinygpu/gpu.py:168-176 | the arrays after the global barrier are `Engine.GlobalBarrier` of the old state |
| EngineLemmas.GlobalBarrierReleases | src/tinygpu/gpu.py:168-176 | with a quorum (some thread active, every active thread waiting), each active waiting thread gets pc+1 and its flag cleared; without one nothing changes; only pc and sync_waiting can change |
| TinyGpu.TinyGPU.HandleBlockBarriers | src/tinygpu/gpu.py:178-194 | the arrays after the block barriers are `Engine.BlockBarriers` of the old state |
| TinyGpu.TinyGPU.ReleaseBlocks | src/tinygpu/gpu.py:183-194 | the loop over blocks gives `Engine.ReleaseFrom` from block 0 |
| EngineLemmas.ReleaseFromAt | src/tinygpu/gpu.py:183-194 | the block loop from block b releases a thread of a later block exactly when its own block has a quorum on the flags the loop started with; earlier blocks are untouched |
| EngineLemmas.BlockBarriersRelease | src/tinygpu/gpu.py:178-194 | each block applies the quorum rule on its own range, a block with no active thread is skipped, and only pc and sync_waiting_block change |
| EngineLemmas.BlockReleasesIff | src/tinygpu/gpu.py:183-190 | the per-thread release rule is the quorum of the block range holding the thread |
| TinyGpu.TinyGPU.RecordHistory | src/tinygpu/gpu.py:196-201 | the five history lists get the current arrays appended |
| TinyGpu.TinyGPU.Step | src/tinygpu/gpu.py:112-127 | a cycle on the arrays gives exactly `Engine.Step`: execute, global barrier, block barriers, record |
| TinyGpu.TinyGPU.StepSingle | src/tinygpu/gpu.py:211-216 | the same as one step |
| EngineLemmas.StepRecords | src/tinygpu/gpu.py:112-127 | a step appends exactly one snapshot of its final state to each history list and keeps the earlier entries; the grid, program, flags and shared memory are not changed; a step that raises records nothing |
| EngineLemmas.StepKeepsShape | src/tinygpu/gpu.py:196-201 | a step keeps every history entry shaped like the state |
| TinyGpu.TinyGPU.Run | src/tinygpu/gpu.py:203-207 | the loop of at most max_cycles steps, stopping when no thread is active, gives exactly `Engine.Run` |
| TinyGpu.TinyGPU.RunCycle | src/tinygpu/gpu.py:204-207 | one iteration of that loop: either it stops with `Engine.Run`'s result, or the remaining run from the new state equals the run from the old one |
| TinyGpu.TinyGPU.RunKernel | src/tinygpu/gpu.py:324-328 | `run_kernel(m)` is `run(m)` |
| EngineLemmas.RunBounded | src/tinygpu/gpu.py:203-207 | `run(m)` adds between 0 and m history entries on top of the old ones, does nothing when no thread is active, and when it ends early without an exception no thread is active |
| TinyGpu.TinyGPU.Snapshot | src/tinygpu/gpu.py:218-248 | the snapshot of the arrays is `Engine.Snapshot` of the model |
| EngineLemmas.SnapshotView | src/tinygpu/gpu.py:218-248 | cycle is the history length; pc, active, flags and shared memory are the current ones; all register rows when none are asked for, else the rows asked for with IndexError exactly when one is out of Python's range; memory is the Python slice asked for |
| TinyGpu.TinyGPU.Rewind | src/tinygpu/gpu.py:250-289 | the arrays after `rewind(k)` are `Engine.Rewind` of the old state, and an exception leaves them unchanged |
| TinyGpu.TinyGPU.TruncateHistory | src/tinygpu/gpu.py:285-289 | the five history lists are cut to their first `target` entries |
| TinyGpu.TinyGPU.RestoreArrays | src/tinygpu/gpu.py:278-283 | registers, memory, pc, flags and shared memory become the given history entry |
| TinyGpu.TinyGPU.ZeroArrays | src/tinygpu/gpu.py:266-271 | registers, memory, pc, flags and shared memory become all zero |
| EngineLemmas.RewindRestores | src/tinygpu/gpu.py:250-289 | k <= 0 changes nothing; k > len(history) raises ValueError; otherwise history keeps its first len-k entries and registers, memory, pc, flags and shared become the new last entry, or zero when none is left; active and wait flags are never restored |
| EngineLemmas.RewindUndoesStep | src/tinygpu/gpu.py:250-289 | rewinding one cycle after a step from a state that matched its last history entry restores that state, apart from active and the wait flags |
| Instructions.Resolve | src/tinygpu/instructions.py:3-18 | a register operand reads the thread's register (Python index, IndexError out of range), an integer is itself, a label string is returned unchanged |
| TinyGpu.Resolve | src/tinygpu/instructions.py:3-18 | `_resolve` read from the arrays equals `Instructions.Resolve` of the model |
| Instructions.ToInt | src/tinygpu/instructions.py:56-60 | `int()` of a resolved value: an int is itself, a string parses or raises ValueError |
| Instructions.StoreRegister | src/tinygpu/instructions.py:21-53 | a register store succeeds exactly when the index is in Python's range and the value converts to an int32, and then writes that one register of that thread only |
| Instructions.Execute | src/tinygpu/gpu.py:150-155 | a table opcode calls its handler, which writes only the thread's register row and memory; an opcode not in the table changes nothing |
| TinyGpu.TinyGPU.StoreRegister | src/tinygpu/instructions.py:21-53 | the in-place register write agrees with `Instructions.StoreRegister` |
| TinyGpu.TinyGPU.Dispatch | src/tinygpu/gpu.py:150-155 | table lookup and handler call on the arrays agree with `Instructions.Execute` |
| TinyGpu.OpSet | src/tinygpu/instructions.py:21-26 | `op_set` on the arrays agrees with `Instructions.Set` |
| TinyGpu.OpAdd | src/tinygpu/instructions.py:29-35 | `op_add` on the arrays agrees with `Instructions.Add` |
| TinyGpu.OpMul | src/tinygpu/instructions.py:38-44 | `op_mul` on the arrays agrees with `Instructions.Mul` |
| TinyGpu.OpLd | src/tinygpu/instructions.py:47-53 | `op_ld` on the arrays agrees with `Instructions.Ld` |
| TinyGpu.OpSt | src/tinygpu/instructions.py:56-60 | `op_st` on the arrays agrees with `Instructions.St` |
| InstructionLemmas.DestinationMustBeRegister | src/tinygpu/instructions.py:21-49 | SET, ADD, MUL and LD raise TypeError when the destination is not a register |
| InstructionLemmas.SetWritesOne | src/tinygpu/instructions.py:21-26 | SET writes the resolved source into rd of thread tid and nothing else |
| InstructionLemmas.AddWritesOne | src/tinygpu/instructions.py:29-35 | ADD writes v1+v2 into rd of thread tid and nothing else |
| InstructionLemmas.MulWritesOne | src/tinygpu/instructions.py:38-44 | MUL writes v1*v2 into rd of thread tid and nothing else |
| InstructionLemmas.AddInPlace | src/tinygpu/instructions.py:29-35 | `ADD Rr, Rr, k` adds k to the register's old value, since both operands are read before the write |
| InstructionLemmas.ArithmeticOverflow | src/tinygpu/instructions.py:29-44 | a sum or product outside int32 raises OverflowError and is not stored |
| InstructionLemmas.LdCopies | src/tinygpu/instructions.py:47-53 | LD copies memory[a] into rd of thread tid; memory is unchanged |
| InstructionLemmas.StWrites | src/tinygpu/instructions.py:56-60 | ST writes the value into memory[a]; registers are unchanged |
| InstructionLemmas.OutOfRangeAddress | src/tinygpu/instructions.py:47-60 | an address outside Python's range for memory makes LD and ST raise IndexError |
| InstructionLemmas.StoreThenLoad | src/tinygpu/instructions.py:47-60 | ST to a then LD from a, by any thread, reads back the stored value |
| InstructionLemmas.TableOpcodes | src/tinygpu/instructions.py:64-70 | the table holds exactly SET, ADD, MUL, LD and ST |
| InstructionLemmas.ExecuteWritesData | src/tinygpu/gpu.py:150-155 | a dispatched instruction changes only the executing thread's registers and memory |
| Assembler.CleanLine | src/tinygpu/assembler.py:2-8 | the cleaned line has no ';' and no leading or trailing whitespace |
| Assembler.CleanLineIsCode | src/tinygpu/assembler.py:2-8 | the cleaned line is the stripped text before the first ';' |
| Assembler.CleanLineIdempotent | src/tinygpu/assembler.py:2-8 | cleaning a cleaned line changes nothing |
| Assembler.Kind | src/tinygpu/assembler.py:14-21 | a code line's text is non-empty, ';'-free and stripped |
| Assembler.CollectLabels | src/tinygpu/assembler.py:10-22 | the label loop returns the table of `LabelPass` over the classified lines |
| Assembler.LabelPassStep | src/tinygpu/assembler.py:13-21 | one more line: a declaration enters the current counter under its name, an instruction moves the counter on, a blank line changes nothing |
| Assembler.LabelPassCounts | src/tinygpu/assembler.py:10-22 | the counter ends at the number of code lines, and every label's value is between 0 and that number |
| Assembler.LabelPassDeclares | src/tinygpu/assembler.py:17-19 | a name is in the table exactly when some line declares it |
| Assembler.LabelPassLast | src/tinygpu/assembler.py:17-19 | a label's value is the number of code lines before its last declaration |
| Assembler.Classify | src/tinygpu/assembler.py:27-32 | a failure is ValueError, and an unresolved label keeps the token, which is not in the table |
| Assembler.ClassifyRegister | src/tinygpu/assembler.py:27-28 | 'R' or 'r' followed by digits becomes that register |
| Assembler.ClassifyBadRegister | src/tinygpu/assembler.py:27-28 | a token starting with 'R'/'r' whose rest is not an integer raises ValueError |
| Assembler.ClassifyResult | src/tinygpu/assembler.py:27-28 | a label named `result` cannot be used: it raises ValueError |
| Assembler.ClassifyDigits | src/tinygpu/assembler.py:29-30 | a token of digits is that integer |
| Assembler.ClassifyNegative | src/tinygpu/assembler.py:29-30 | '-' and digits is the negative integer |
| Assembler.ClassifyDoubleMinus | src/tinygpu/assembler.py:29-30 | two or more '-' before digits pass the `lstrip('-')` test but `int()` raises ValueError |
| Assembler.ClassifySignedRegister | src/tinygpu/assembler.py:27-28 | 'R' or 'r' followed by '-' and digits is the register with that negative number |
| Assembler.ClassifyName | src/tinygpu/assembler.py:31-32 | any other token is the label's address when known and the token itself otherwise |
| Assembler.GatherEach | src/tinygpu/assembler.py:24-33 | collecting results succeeds exactly when each one does, with the values in order |
| Assembler.ClassifiedAt | src/tinygpu/assembler.py:26-32 | one classification per token, in order |
| Assembler.ParseArgs | src/tinygpu/assembler.py:24-33 | the argument loop returns the first error, or the classification of every token after the opcode |
| Assembler.ParseLineWords | src/tinygpu/assembler.py:50-52 | a line parses exactly when it has a word and every later word classifies; the opcode is the first word upper-cased, with one operand per later word in order |
| Assembler.ParsedAt | src/tinygpu/assembler.py:44-53 | the program pass emits one entry per code line, in source order |
| Assembler.Assemble | src/tinygpu/assembler.py:35-54 | the program loop returns exactly `Assembled` of the classified lines |
| Assembler.AssembleOk | src/tinygpu/assembler.py:44-53 | assembly succeeds exactly when every code line parses with the collected table |
| Assembler.AssembledProgram | src/tinygpu/assembler.py:44-53 | the program has one entry per code line, every label value is at most its length, and code line i becomes entry `Count(lines before i)` |
| Assembler.LabelAddressesNext | src/tinygpu/assembler.py:10-54 | a label followed by a code line addresses that line's entry in the program |
| Assembler.LabelAtEnd | src/tinygpu/assembler.py:10-54 | a label with no code line after it equals the program's length |
| PyStr.PyIntOfDigits | src/tinygpu/assembler.py:27-30 | `int()` of ASCII digits is their decimal value |
| PyStr.PyIntOfNegativeDigits | src/tinygpu/assembler.py:30 | `int()` of '-' and digits is the negative value |
| PyStr.PyIntOfDoubleMinus | src/tinygpu/assembler.py:30 | `int()` of a doubled sign raises |

`rewind` is not an exact inverse of `step`:

- `rewind` undoes a `step` only in the form `EngineLemmas.RewindUndoesStep` states.
  Active and the wait flags are not restored.
- Rewinding to cycle 0 zeroes registers and memory. It does not return to the
  state before the first step.

## Left out

- File input: `assemble_file` opens and reads a path (src/tinygpu/assembler.py:41-42). `Assembler.Assemble` takes the lines instead.
- Character classes: whitespace, `upper()`, `isdigit()` and `int()` digits are modelled for ASCII only. Python's Unicode classes and digits are not part of this model.
- The visualizer (src/tinygpu/visualizer.py) and the example drivers are not part of this model. They only read the history, print, plot or do file I/O.
- SYNC, SYNCB and branches have no handler in the dispatch table. Only their absence is modelled: an unknown opcode is a no-op. The barrier handlers run on arbitrary wait-flag states.
- Test monkeypatching of the dispatch table (tests/test_gpu.py:38-39) is not modelled.
- Instructions.StoreRegister: an int32 store of an out-of-range value is modelled as OverflowError, which is NumPy 2's behaviour. The wrap-around of older NumPy versions is not modelled.
- Instructions.StoreRegister: writing a label string into an int32 cell is modelled as Python `int()` of the string.
- TinyGpu.TinyGPU.constructor: a Dafny constructor cannot fail, so it requires the sizes `Engine.New` accepts. The ValueError for a negative size and the IndexError for threads without registers (src/tinygpu/gpu.py:53) are modelled by `Engine.New` only.
- TinyGpu.TinyGPU.SetGrid: negative grid sizes are excluded by `requires`, and `Engine.SetGrid`, `Engine.LoadKernel` and `TinyGpu.TinyGPU.LoadKernel` inherit this exclusion. In Python, `num_blocks`, `threads_per_block` and `shared_size` are assigned first (src/tinygpu/gpu.py:60-62). A negative size then makes `np.zeros` raise ValueError at gpu.py:70 or gpu.py:86, leaving that partly changed state, which is not modelled. One negative case does not raise: `num_blocks == 0` with a negative `threads_per_block` and `shared_size >= 0` gives zero threads and returns normally with a negative `threads_per_block`. That case is not modelled either.
- TinyGpu.TinyGPU.SetGrid: the sizes are taken as integers. The `int()` conversions of `num_blocks`, `threads_per_block` and `shared_size` (src/tinygpu/gpu.py:60-62) are not modelled.
- EngineLemmas.SetGridConfigures: stated for tpb > 0. With tpb == 0 there are no threads, and Python's `//` is never evaluated.
- The `hasattr(self, "threads_per_block")` fallback of `load_kernel` (src/tinygpu/gpu.py:305-309) is always true after `__init__`, so the current value is used and the fallback is not modelled.
- TinyGpu.TinyGPU.LoadKernel: grid sizes, `shared_size` and the arguments are taken as integers. The `int()` conversions of src/tinygpu/gpu.py:311 and gpu.py:319 (a float `2.7` stored as 2, a numeric string parsed) are not modelled.
- Default arguments are not modelled: `num_threads=8`, `num_registers=8`, `mem_size=256`, `grid=(1, None)`, `max_cycles=1000` and `cycles=1` are passed explicitly.
- TinyGpu.TinyGPU.Rewind: requires history entries shaped like the current arrays. Any `set_grid` after recorded history that changes the thread count, the block count or `shared_size` breaks this, since `set_grid` reallocates shared memory on every call (src/tinygpu/gpu.py:86). NumPy then either broadcasts a one-row entry into the larger array or raises ValueError; neither is modelled. The `set_grid` docstring (src/tinygpu/gpu.py:58) asks for it to be called before running.
- The `hasattr(self, "shared")` guards (src/tinygpu/gpu.py:247, 270, 282) are always true and are not modelled.
- Engine.Snapshot: returns a record instead of a dict of lists. The conversion to Python lists and dicts is not modelled.
- pc is an unbounded integer. The int32 width of the pc array is not modelled, since no handler writes pc.
- The whole-file assembler test (tests/test_assembler.py:6-22) is covered only by the general lemmas. It is not stated on its literal text.
- The engine scenario of tests/test_gpu.py:16-43 is covered only by the general lemmas `EngineLemmas.StepDrains` and `EngineLemmas.RunDrains`. It is not stated on the literal program.
