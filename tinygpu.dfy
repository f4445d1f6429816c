/** The simulator object as it is written: a `TinyGPU` whose NumPy arrays
    are Dafny arrays updated in place, and the instruction handlers that
    write into them. Every method is proved to take the object from the
    state `Model()` describes to the state the matching Engine or
    Instructions function computes. */
module TinyGpu {
  import opened Py
  import opened Store
  import Instructions
  import Engine

  /** The contents of a two-dimensional array, row by row (`a.copy()`). */
  function Rows(a: array2<int>): (r: seq<seq<int>>)
    reads a
    ensures IsGrid(r, a.Length0, a.Length1)
    ensures forall i, j :: 0 <= i < a.Length0 && 0 <= j < a.Length1 ==> r[i][j] == a[i, j]
  {
    seq(a.Length0, i requires 0 <= i < a.Length0 reads a =>
      seq(a.Length1, j requires 0 <= j < a.Length1 reads a => a[i, j]))
  }

  /** A handler call that returned normally left the state its specification
      computes; one that raised left the state as it was. */
  predicate Agrees(r: Result<Gpu>, before: Gpu, after: Gpu, err: Option<Exception>) {
    match r
    case Ok(h) => err == None && after == h
    case Err(e) => err == Some(e) && after == before
  }

  class TinyGPU {
    var numThreads: int
    var numRegisters: int
    var memSize: int
    var numBlocks: int
    var threadsPerBlock: int
    var sharedSize: int

    var registers: array2<int>
    var memory: array<int>
    var pc: array<int>
    var active: array<bool>
    var flags: array<int>
    var syncWaiting: array<bool>
    var syncWaitingBlock: array<bool>
    var shared: array2<int>

    var history: History

    var program: seq<Instr>
    var labels: map<string, int>

    /** Array sizes agree with the configuration, arrays of the same type are
        distinct objects, and the five history lists grow together. */
    ghost predicate Valid()
      reads this
    {
      && numThreads >= 0 && numRegisters >= 0 && memSize >= 0
      && numBlocks >= 0 && threadsPerBlock >= 0 && sharedSize >= 0
      && numThreads == numBlocks * threadsPerBlock
      && registers.Length0 == numThreads && registers.Length1 == numRegisters
      && memory.Length == memSize
      && pc.Length == numThreads && active.Length == numThreads && flags.Length == numThreads
      && syncWaiting.Length == numThreads && syncWaitingBlock.Length == numThreads
      && shared.Length0 == numBlocks && shared.Length1 == sharedSize
      && memory != pc && memory != flags && pc != flags
      && active != syncWaiting && active != syncWaitingBlock && syncWaiting != syncWaitingBlock
      && registers != shared
      && history.Aligned()
    }

    /** The object's state as a value. */
    ghost function Model(): (g: Gpu)
      reads this, registers, memory, pc, active, flags, syncWaiting, syncWaitingBlock, shared
      requires Valid()
      ensures WellFormed(g)
    {
      Gpu(numThreads, numRegisters, memSize, numBlocks, threadsPerBlock, sharedSize,
          Rows(registers), memory[..], pc[..], active[..], flags[..],
          syncWaiting[..], syncWaitingBlock[..], Rows(shared),
          history,
          program, labels)
    }

    /** A value with the object's configuration, array contents, histories
        and program is the object's Model(). */
    lemma ModelIs(g: Gpu)
      requires Valid()
      requires g.numThreads == numThreads && g.numRegisters == numRegisters && g.memSize == memSize
      requires g.numBlocks == numBlocks && g.threadsPerBlock == threadsPerBlock && g.sharedSize == sharedSize
      requires g.regs == Rows(registers) && g.mem == memory[..] && g.pc == pc[..] && g.active == active[..]
      requires g.flags == flags[..] && g.syncWaiting == syncWaiting[..]
      requires g.syncWaitingBlock == syncWaitingBlock[..] && g.shared == Rows(shared)
      requires g.history == history
      requires g.program == program && g.labels == labels
      ensures Model() == g
    {
    }

    /** `TinyGPU(num_threads, num_registers, mem_size)`: zeroed arrays, then
        the thread id in R7 (R0 with fewer than 8 registers). */
    constructor (nt: int, nr: int, ms: int)
      requires nt >= 0 && nr >= 0 && ms >= 0
      requires nt == 0 || nr > 0
      ensures Valid() && Model() == Engine.Init(nt, nr, ms)
      ensures Engine.New(nt, nr, ms) == Ok(Model())
    {
      var regs := InitialRegisterFile(nt, nr);
      var mem := NewZeros(ms);
      var p := NewZeros(nt);
      var ac := NewBools(nt, true);
      var f := NewZeros(nt);
      var sw := NewBools(nt, false);
      var swb := NewBools(nt, false);
      var sh := NewGrid(1, 0);
      numThreads, numRegisters, memSize := nt, nr, ms;
      numBlocks, threadsPerBlock, sharedSize := 1, nt, 0;
      registers, memory, pc, active, flags, syncWaiting, syncWaitingBlock, shared := regs, mem, p, ac, f, sw, swb, sh;
      history, program, labels := NoHistory, [], map[];
    }

    /** `gpu.registers[tid, rd] = v`: Python indexing on the register number,
        then the value converted into an int32 cell. */
    method StoreRegister(tid: int, rd: int, v: Instructions.Value) returns (err: Option<Exception>)
      requires Valid() && 0 <= tid < numThreads
      modifies registers
      ensures Valid()
      ensures Agrees(Instructions.StoreRegister(old(Model()), tid, rd, v), old(Model()), Model(), err)
    {
      var j := PyIndex(rd, numRegisters);
      if j.None? {
        return Some(IndexError);
      }
      var x := Instructions.ToInt(v);
      if x.Err? {
        return Some(x.error);
      }
      if !IsInt32(x.value) {
        return Some(OverflowError);
      }
      ghost var before := Rows(registers);
      registers[tid, j.value] := x.value;
      assert Rows(registers) == before[tid := before[tid][j.value := x.value]] by {
        GridExtensional(Rows(registers), before[tid := before[tid][j.value := x.value]], numThreads, numRegisters);
      }
      err := None;
    }

    /** The dispatch of `_execute_threads`: look the opcode up in the table and
        call its handler with the instruction's operands; an unknown opcode
        does nothing. */
    method Dispatch(tid: int, ins: Instr) returns (err: Option<Exception>)
      requires Valid() && 0 <= tid < numThreads
      modifies registers, memory
      ensures Valid()
      ensures Agrees(Instructions.Execute(old(Model()), tid, ins), old(Model()), Model(), err)
    {
      if ins.op !in Instructions.Table {
        return None;
      }
      var h := Instructions.Table[ins.op];
      var a := ins.args;
      if |a| != Instructions.Arity(h) {
        return Some(TypeError);
      }
      match h
      case SetOp => err := OpSet(this, tid, a[0], a[1]);
      case AddOp => err := OpAdd(this, tid, a[0], a[1], a[2]);
      case MulOp => err := OpMul(this, tid, a[0], a[1], a[2]);
      case LdOp => err := OpLd(this, tid, a[0], a[1]);
      case StOp => err := OpSt(this, tid, a[0], a[1]);
    }

    /** The `while True` loop of `_execute_threads` for one active thread. */
    method RunThread(tid: int) returns (err: Option<Exception>)
      requires Valid() && 0 <= tid < numThreads
      modifies registers, memory, pc, active
      ensures Valid()
      ensures Engine.Outcome(Model(), err) == Engine.RunThread(old(Model()), tid)
    {
      while true
        invariant Valid()
        invariant Engine.RunThread(Model(), tid) == Engine.RunThread(old(Model()), tid)
        decreases |program| - pc[tid]
      {
        var stop;
        stop, err := RunInstruction(tid);
        if stop {
          return;
        }
      }
    }

    /** One turn of the `while True` loop: deactivate the thread when pc is
        outside the program, otherwise run the instruction at pc and either
        stop (it raised, moved pc or left the thread waiting) or move pc on. */
    method RunInstruction(tid: int) returns (stop: bool, err: Option<Exception>)
      requires Valid() && 0 <= tid < numThreads
      modifies registers, memory, pc, active
      ensures Valid() && program == old(program)
      ensures stop ==> Engine.Outcome(Model(), err) == Engine.RunThread(old(Model()), tid)
      ensures !stop ==> && err == None && old(pc[tid]) < |program| && pc[tid] == old(pc[tid]) + 1
                        && Engine.RunThread(Model(), tid) == Engine.RunThread(old(Model()), tid)
    {
      if pc[tid] < 0 || pc[tid] >= |program| {
        active[tid] := false;
        return true, None;
      }
      var beforePc := pc[tid];
      err := Dispatch(tid, program[beforePc]);
      if err.Some? {
        return true, err;
      }
      if pc[tid] != beforePc || syncWaiting[tid] || syncWaitingBlock[tid] {
        return true, None;
      }
      pc[tid] := beforePc + 1;
      stop := false;
    }

    /** `_execute_threads`: every active thread in tid order. */
    method ExecuteThreads() returns (err: Option<Exception>)
      requires Valid()
      modifies registers, memory, pc, active
      ensures Valid()
      ensures Engine.Outcome(Model(), err) == Engine.ExecuteThreads(old(Model()))
    {
      var tid := 0;
      while tid < numThreads
        invariant Valid() && 0 <= tid <= numThreads
        invariant Engine.ExecFrom(Model(), tid) == Engine.ExecFrom(old(Model()), 0)
      {
        if active[tid] {
          err := RunThread(tid);
          if err.Some? {
            return;
          }
        }
        tid := tid + 1;
      }
      err := None;
    }

    /** The identity seeding at the end of `set_grid`: R5 gets the block id
        and R6 the index inside the block, where those registers exist. */
    method SeedRegisters()
      requires Valid()
      modifies registers
      ensures Valid()
      ensures Rows(registers) == Engine.Seeded(old(Rows(registers)), threadsPerBlock)
    {
      if numThreads > 0 {
        PositiveFactor(numBlocks, threadsPerBlock);
      }
      ghost var before := Rows(registers);
      var tid := 0;
      while tid < numThreads
        invariant 0 <= tid <= numThreads
        invariant forall t, j :: 0 <= t < numThreads && 0 <= j < numRegisters ==>
          registers[t, j] == if t < tid then Engine.Seeded(before, threadsPerBlock)[t][j] else before[t][j]
      {
        var blockId := tid / threadsPerBlock;
        var threadInBlock := tid % threadsPerBlock;
        if numRegisters > 5 {
          registers[tid, 5] := blockId;
        }
        if numRegisters > 6 {
          registers[tid, 6] := threadInBlock;
        }
        tid := tid + 1;
      }
      GridExtensional(Rows(registers), Engine.Seeded(before, threadsPerBlock), numThreads, numRegisters);
    }

    /** `set_grid(num_blocks, threads_per_block, shared_size)`. The per-thread
        arrays are replaced by new ones only when the thread count changes;
        shared memory is always replaced. */
    method SetGrid(nb: int, tpb: int, s: int)
      requires Valid() && nb >= 0 && tpb >= 0 && s >= 0
      modifies this, registers
      ensures Valid() && Model() == Engine.SetGrid(old(Model()), nb, tpb, s)
      ensures memory == old(memory) && fresh(shared)
      ensures registers == old(registers) || fresh(registers)
      ensures pc == old(pc) || fresh(pc)
      ensures active == old(active) || fresh(active)
      ensures flags == old(flags) || fresh(flags)
      ensures syncWaiting == old(syncWaiting) || fresh(syncWaiting)
      ensures syncWaitingBlock == old(syncWaitingBlock) || fresh(syncWaitingBlock)
    {
      ghost var g0 := Model();
      var total := nb * tpb;
      if total != numThreads {
        ResizeThreads(total);
      }
      ConfigureGrid(nb, tpb, s);
      SeedRegisters();
      ModelIs(Engine.SetGrid(g0, nb, tpb, s));
    }

    /** The resizing branch of `set_grid`: new per-thread arrays for `total`
        threads, keeping the register rows of the threads that remain. */
    method ResizeThreads(total: nat)
      requires registers.Length0 == numThreads && registers.Length1 == numRegisters
      modifies this`numThreads, this`registers, this`pc, this`active, this`flags
      modifies this`syncWaiting, this`syncWaitingBlock
      ensures numThreads == total
      ensures fresh(registers) && registers.Length0 == total && registers.Length1 == numRegisters
      ensures Rows(registers) == Engine.ResizedRows(old(Rows(registers)), total, numRegisters)
      ensures fresh(pc) && pc[..] == Zeros(total) && fresh(flags) && flags[..] == Zeros(total)
      ensures fresh(active) && active[..] == Filled(total, true)
      ensures fresh(syncWaiting) && syncWaiting[..] == Filled(total, false)
      ensures fresh(syncWaitingBlock) && syncWaitingBlock[..] == Filled(total, false)
      ensures pc != flags && active != syncWaiting && active != syncWaitingBlock && syncWaiting != syncWaitingBlock
    {
      var regs := Resized(registers, total);
      numThreads, registers := total, regs;
      FreshThreadState(total);
    }

    /** `np.zeros` / `np.ones` for pc, active, flags and both wait masks. */
    method FreshThreadState(total: nat)
      modifies this`pc, this`active, this`flags, this`syncWaiting, this`syncWaitingBlock
      ensures fresh(pc) && pc[..] == Zeros(total) && fresh(flags) && flags[..] == Zeros(total)
      ensures fresh(active) && active[..] == Filled(total, true)
      ensures fresh(syncWaiting) && syncWaiting[..] == Filled(total, false)
      ensures fresh(syncWaitingBlock) && syncWaitingBlock[..] == Filled(total, false)
      ensures pc != flags && active != syncWaiting && active != syncWaitingBlock && syncWaiting != syncWaitingBlock
      ensures pc.Length == total && active.Length == total && flags.Length == total
      ensures syncWaiting.Length == total && syncWaitingBlock.Length == total
    {
      var p := NewZeros(total);
      var ac := NewBools(total, true);
      var f := NewZeros(total);
      var sw := NewBools(total, false);
      var swb := NewBools(total, false);
      pc, active, flags, syncWaiting, syncWaitingBlock := p, ac, f, sw, swb;
    }

    /** The grid fields of `set_grid` and its new, zeroed shared memory. */
    method ConfigureGrid(nb: nat, tpb: nat, s: nat)
      modifies this`numBlocks, this`threadsPerBlock, this`sharedSize, this`shared
      ensures numBlocks == nb && threadsPerBlock == tpb && sharedSize == s
      ensures fresh(shared) && shared.Length0 == nb && shared.Length1 == s
      ensures Rows(shared) == ZeroGrid(nb, s)
    {
      var sh := NewGrid(nb, s);
      numBlocks, threadsPerBlock, sharedSize, shared := nb, tpb, s, sh;
    }

    /** `load_program(program, labels)` */
    method LoadProgram(prog: seq<Instr>, labs: Option<map<string, int>>)
      requires Valid()
      modifies this`program, this`labels, pc, syncWaiting, syncWaitingBlock, active
      modifies this`history
      ensures Valid() && Model() == Engine.LoadProgram(old(Model()), prog, labs)
    {
      ghost var g1 := Engine.LoadProgram(Model(), prog, labs);
      program, labels, history := prog, if labs.Some? then labs.value else map[], NoHistory;
      ResetThreads();
      ModelIs(g1);
    }

    /** The resets of `load_program`: pc back to 0, nobody waiting, every
        thread active. */
    method ResetThreads()
      requires Valid()
      modifies pc, syncWaiting, syncWaitingBlock, active
      ensures Valid()
      ensures pc[..] == Zeros(numThreads) && active[..] == Filled(numThreads, true)
      ensures syncWaiting[..] == Filled(numThreads, false) && syncWaitingBlock[..] == Filled(numThreads, false)
    {
      FillInts(pc, 0);
      FillBools(syncWaiting, false);
      FillBools(syncWaitingBlock, false);
      FillBools(active, true);
    }

    /** The argument loop of `load_kernel`. */
    method WriteArgs(args: seq<int>) returns (err: Option<Exception>)
      requires Valid()
      modifies registers
      ensures Valid()
      ensures Engine.Outcome(Model(), err) == Engine.WriteArgs(old(Model()), args)
    {
      if args == [] {
        return None;
      }
      ghost var before := Rows(registers);
      var tid := 0;
      while tid < numThreads
        invariant 0 <= tid <= numThreads
        invariant tid > 0 ==> Engine.FirstOverflow(args, numRegisters).None?
        invariant forall t, j :: 0 <= t < numThreads && 0 <= j < numRegisters ==>
          registers[t, j] == if t < tid then Engine.WithArgs(before[t], args)[j] else before[t][j]
      {
        var i := 0;
        while i < |args|
          invariant 0 <= i <= |args|
          invariant forall k :: 0 <= k < i && k < numRegisters ==> IsInt32(args[k])
          invariant forall t, j :: 0 <= t < numThreads && 0 <= j < numRegisters ==>
            registers[t, j] == if t < tid then Engine.WithArgs(before[t], args)[j]
                               else if t == tid then Engine.WithArgs(before[t], args[..i])[j]
                               else before[t][j]
        {
          if i < numRegisters {
            if !IsInt32(args[i]) {
              assert Engine.FirstOverflow(args, numRegisters) == Some(i);
              assert Rows(registers) == before[0 := Engine.WithArgs(before[0], args[..i])] by {
                GridExtensional(Rows(registers), before[0 := Engine.WithArgs(before[0], args[..i])], numThreads, numRegisters);
              }
              return Some(OverflowError);
            }
            registers[tid, i] := args[i];
          }
          i := i + 1;
        }
        assert args[..i] == args;
        tid := tid + 1;
      }
      var n := numThreads;
      ghost var after := seq(n, t requires 0 <= t < n => Engine.WithArgs(before[t], args));
      assert Rows(registers) == after by {
        GridExtensional(Rows(registers), after, numThreads, numRegisters);
      }
      err := None;
    }

    /** `load_kernel(program, labels, grid=(num_blocks, tpb), args, shared_size)` */
    method LoadKernel(prog: seq<Instr>, labs: Option<map<string, int>>, nb: int, tpb: Option<int>,
                      args: seq<int>, s: int) returns (err: Option<Exception>)
      requires Valid() && nb >= 0 && s >= 0 && (tpb.Some? ==> tpb.value >= 0)
      modifies this, registers, pc, syncWaiting, syncWaitingBlock, active
      ensures Valid()
      ensures Engine.Outcome(Model(), err) == Engine.LoadKernel(old(Model()), prog, labs, nb, tpb, args, s)
    {
      var t := if tpb.Some? then tpb.value else threadsPerBlock;
      SetGrid(nb, t, s);
      err := WriteArgs(args);
      if err.Some? {
        return;
      }
      LoadProgram(prog, labs);
    }

    /** `_handle_global_barrier` */
    method HandleGlobalBarrier()
      requires Valid()
      modifies pc, syncWaiting
      ensures Valid() && Model() == Engine.GlobalBarrier(old(Model()))
    {
      ghost var g0 := Model();
      if (exists t :: 0 <= t < numThreads && syncWaiting[t])
         && (exists t :: 0 <= t < numThreads && active[t])
         && (forall t :: 0 <= t < numThreads && active[t] ==> syncWaiting[t])
      {
        ReleaseWaiting(active, pc, syncWaiting, 0, numThreads);
      }
      ModelIs(Engine.GlobalBarrier(g0));
    }

    /** `_handle_block_barriers`: block by block, over each block's own range
        of threads. */
    method HandleBlockBarriers()
      requires Valid()
      modifies pc, syncWaitingBlock
      ensures Valid() && Model() == Engine.BlockBarriers(old(Model()))
    {
      if !(exists t :: 0 <= t < numThreads && syncWaitingBlock[t]) {
        return;
      }
      ghost var g0 := Model();
      ReleaseBlocks();
      ModelIs(Engine.BlockBarriers(g0));
    }

    /** The block loop of `_handle_block_barriers`. */
    method ReleaseBlocks()
      requires Valid()
      modifies pc, syncWaitingBlock
      ensures (pc[..], syncWaitingBlock[..])
           == Engine.ReleaseFrom(active[..], old(pc[..]), old(syncWaitingBlock[..]), numBlocks, threadsPerBlock, 0)
    {
      var b := 0;
      while b < numBlocks
        invariant 0 <= b <= numBlocks
        invariant Engine.ReleaseFrom(active[..], pc[..], syncWaitingBlock[..], numBlocks, threadsPerBlock, b)
               == Engine.ReleaseFrom(active[..], old(pc[..]), old(syncWaitingBlock[..]), numBlocks, threadsPerBlock, 0)
      {
        var start := b * threadsPerBlock;
        var end := start + threadsPerBlock;
        BlockInGrid(b, numBlocks, threadsPerBlock);
        if (exists t :: start <= t < end && active[t])
           && (forall t :: start <= t < end && active[t] ==> syncWaitingBlock[t])
        {
          ReleaseWaiting(active, pc, syncWaitingBlock, start, end);
        }
        b := b + 1;
      }
    }

    /** `_record_history` */
    method RecordHistory()
      requires Valid()
      modifies this`history
      ensures Valid() && Model() == Engine.RecordHistory(old(Model()))
    {
      history := history.Appended(Rows(registers), memory[..], pc[..], flags[..], Rows(shared));
    }

    /** `step()`: one cycle. */
    method Step() returns (err: Option<Exception>)
      requires Valid()
      modifies registers, memory, pc, active, syncWaiting, syncWaitingBlock
      modifies this`history
      ensures Valid()
      ensures Engine.Outcome(Model(), err) == Engine.Step(old(Model()))
    {
      err := ExecuteThreads();
      if err.Some? {
        return;
      }
      HandleGlobalBarrier();
      HandleBlockBarriers();
      RecordHistory();
    }

    /** `step_single()`, the debugger's name for `step()`. */
    method StepSingle() returns (err: Option<Exception>)
      requires Valid()
      modifies registers, memory, pc, active, syncWaiting, syncWaitingBlock
      modifies this`history
      ensures Valid()
      ensures Engine.Outcome(Model(), err) == Engine.Step(old(Model()))
    {
      err := Step();
    }

    /** `run(max_cycles)` */
    method Run(maxCycles: int) returns (err: Option<Exception>)
      requires Valid()
      modifies registers, memory, pc, active, syncWaiting, syncWaitingBlock
      modifies this`history
      ensures Valid()
      ensures Engine.Outcome(Model(), err) == Engine.Run(old(Model()), maxCycles)
    {
      var cycle := 0;
      while cycle < maxCycles
        invariant Valid() && 0 <= cycle
        invariant maxCycles > 0 ==> cycle <= maxCycles
        invariant Engine.Run(Model(), maxCycles - cycle) == Engine.Run(old(Model()), maxCycles)
      {
        var stop;
        stop, err := RunCycle(maxCycles - cycle);
        if stop {
          return;
        }
        cycle := cycle + 1;
      }
      err := None;
    }

    /** One iteration of the loop of `run`: stop when no thread is active,
        otherwise step once. */
    method RunCycle(ghost left: int) returns (stop: bool, err: Option<Exception>)
      requires Valid() && left > 0
      modifies registers, memory, pc, active, syncWaiting, syncWaitingBlock
      modifies this`history
      ensures Valid()
      ensures stop ==> Engine.Outcome(Model(), err) == Engine.Run(old(Model()), left)
      ensures !stop ==> err == None && Engine.Run(Model(), left - 1) == Engine.Run(old(Model()), left)
    {
      if !(exists t :: 0 <= t < numThreads && active[t]) {
        return true, None;
      }
      Engine.RunUnfolds(Model(), left);
      err := Step();
      stop := err.Some?;
    }

    /** `run_kernel(max_cycles)`, the same loop as `run`. */
    method RunKernel(maxCycles: int) returns (err: Option<Exception>)
      requires Valid()
      modifies registers, memory, pc, active, syncWaiting, syncWaitingBlock
      modifies this`history
      ensures Valid()
      ensures Engine.Outcome(Model(), err) == Engine.Run(old(Model()), maxCycles)
    {
      err := Run(maxCycles);
    }

    /** `snapshot(mem_slice, regs_threads)` */
    function Snapshot(memSlice: Option<(int, int)>, regsThreads: Option<seq<int>>): (r: Result<Engine.View>)
      reads this, registers, memory, pc, active, flags, syncWaiting, syncWaitingBlock, shared
      requires Valid()
      ensures r == Engine.Snapshot(Model(), memSlice, regsThreads)
    {
      var mem := memory[..];
      var memView := if memSlice.Some? then PySlice(mem, memSlice.value.0, memSlice.value.1) else mem;
      var regs := Rows(registers);
      if regsThreads.None? then
        Ok(Engine.View(|history.pc|, pc[..], active[..], flags[..],
                       map t | 0 <= t < numThreads :: regs[t], memView, Rows(shared)))
      else if exists t :: t in regsThreads.value && PyIndex(t, numThreads).None? then Err(IndexError)
      else
        Ok(Engine.View(|history.pc|, pc[..], active[..], flags[..],
                       map t | t in regsThreads.value :: regs[PyIndex(t, numThreads).value],
                       memView, Rows(shared)))
    }

    /** `rewind(cycles)` */
    method Rewind(cycles: int) returns (err: Option<Exception>)
      requires Valid() && HistoryShaped(Model())
      modifies registers, memory, pc, flags, shared
      modifies this`history
      ensures Valid()
      ensures Agrees(Engine.Rewind(old(Model()), cycles), old(Model()), Model(), err)
    {
      if cycles <= 0 {
        return None;
      }
      if cycles > |history.registers| {
        return Some(ValueError);
      }
      ghost var g0 := Model();
      var target := |history.registers| - cycles;
      if target == 0 {
        ZeroArrays();
      } else {
        RestoreArrays(history.registers[target - 1], history.memory[target - 1], history.pc[target - 1],
                      history.flags[target - 1], history.shared[target - 1]);
      }
      TruncateHistory(target);
      ModelIs(Engine.Rewind(g0, cycles).value);
      err := None;
    }

    /** The arrays that `rewind` to the very beginning zeroes. */
    method ZeroArrays()
      requires Valid()
      modifies registers, memory, pc, flags, shared
      ensures Rows(registers) == ZeroGrid(numThreads, numRegisters) && memory[..] == Zeros(memSize)
      ensures pc[..] == Zeros(numThreads) && flags[..] == Zeros(numThreads)
      ensures Rows(shared) == ZeroGrid(numBlocks, sharedSize)
    {
      FillGrid(registers);
      FillInts(memory, 0);
      FillInts(pc, 0);
      FillInts(flags, 0);
      FillGrid(shared);
    }

    /** The arrays that `rewind` copies back from one history entry. */
    method RestoreArrays(hr: seq<seq<int>>, hm: seq<int>, hp: seq<int>, hf: seq<int>, hs: seq<seq<int>>)
      requires Valid()
      requires IsGrid(hr, numThreads, numRegisters) && |hm| == memSize && |hp| == numThreads && |hf| == numThreads
      requires IsGrid(hs, numBlocks, sharedSize)
      modifies registers, memory, pc, flags, shared
      ensures Rows(registers) == hr && memory[..] == hm && pc[..] == hp && flags[..] == hf && Rows(shared) == hs
    {
      CopyGrid(registers, hr);
      CopyInts(memory, hm);
      CopyInts(pc, hp);
      CopyInts(flags, hf);
      CopyGrid(shared, hs);
    }

    /** The trimming of the five history lists in `rewind`. */
    method TruncateHistory(target: nat)
      requires Valid() && target <= |history.registers|
      modifies this`history
      ensures Valid()
      ensures history == old(history.Prefix(target))
    {
      history := history.Prefix(target);
    }
  }

  /** The release loop of both barrier handlers over the threads [lo, hi):
      `if active[tid] and waiting[tid]: pc[tid] += 1; waiting[tid] = False`. */
  method ReleaseWaiting(active: array<bool>, pc: array<int>, waiting: array<bool>, lo: int, hi: int)
    requires active != waiting && pc.Length == active.Length && waiting.Length == active.Length
    requires 0 <= lo <= hi <= active.Length
    modifies pc, waiting
    ensures (pc[..], waiting[..]) == Engine.Release(active[..], old(pc[..]), old(waiting[..]), lo, hi)
  {
    ghost var p0, w0 := pc[..], waiting[..];
    var tid := lo;
    while tid < hi
      invariant lo <= tid <= hi
      invariant forall t :: 0 <= t < pc.Length ==>
        var released := lo <= t < tid && active[t] && w0[t];
        pc[t] == (if released then p0[t] + 1 else p0[t]) && waiting[t] == (if released then false else w0[t])
    {
      if active[tid] && waiting[tid] {
        pc[tid] := pc[tid] + 1;
        waiting[tid] := false;
      }
      tid := tid + 1;
    }
    assert pc[..] == Engine.Release(active[..], p0, w0, lo, hi).0;
    assert waiting[..] == Engine.Release(active[..], p0, w0, lo, hi).1;
  }

  /** The register file of a fresh `TinyGPU`: zeros, then the thread id in
      R7, or in R0 when there are fewer than 8 registers. */
  method InitialRegisterFile(nt: nat, nr: nat) returns (regs: array2<int>)
    requires nt == 0 || nr > 0
    ensures fresh(regs) && regs.Length0 == nt && regs.Length1 == nr
    ensures Rows(regs) == Engine.InitialRegisters(nt, nr)
  {
    regs := new int[nt, nr]((_, _) => 0);
    var tid := 0;
    while tid < nt
      invariant 0 <= tid <= nt
      invariant forall t, j :: 0 <= t < nt && 0 <= j < nr ==>
        regs[t, j] == if t < tid && ((nr > 7 && j == 7) || (nr <= 7 && j == 0)) then t else 0
    {
      if nr > 7 {
        regs[tid, 7] := tid;
      } else {
        regs[tid, 0] := tid;
      }
      tid := tid + 1;
    }
    GridExtensional(Rows(regs), Engine.InitialRegisters(nt, nr), nt, nr);
  }

  /** A new int array of n zeros (`np.zeros(n)`). */
  method NewZeros(n: nat) returns (a: array<int>)
    ensures fresh(a) && a.Length == n && a[..] == Zeros(n)
  {
    a := new int[n](_ => 0);
  }

  /** A new bool array of n cells b (`np.ones(n, dtype=bool)`, `np.zeros(...)`). */
  method NewBools(n: nat, b: bool) returns (a: array<bool>)
    ensures fresh(a) && a.Length == n && a[..] == Filled(n, b)
  {
    a := new bool[n](_ => b);
  }

  /** A new zeroed two-dimensional array (`np.zeros((rows, cols))`). */
  method NewGrid(rows: nat, cols: nat) returns (a: array2<int>)
    ensures fresh(a) && a.Length0 == rows && a.Length1 == cols && Rows(a) == ZeroGrid(rows, cols)
  {
    a := new int[rows, cols]((_, _) => 0);
    GridExtensional(Rows(a), ZeroGrid(rows, cols), rows, cols);
  }

  /** A new zeroed register file of `total` rows into which the rows of the
      threads that remain are copied. */
  method Resized(a: array2<int>, total: nat) returns (b: array2<int>)
    ensures fresh(b) && b.Length0 == total && b.Length1 == a.Length1
    ensures Rows(b) == Engine.ResizedRows(Rows(a), total, a.Length1)
  {
    var keep := if a.Length0 < total then a.Length0 else total;
    b := new int[total, a.Length1]((_, _) => 0);
    forall t, j | 0 <= t < keep && 0 <= j < a.Length1 {
      b[t, j] := a[t, j];
    }
    GridExtensional(Rows(b), Engine.ResizedRows(Rows(a), total, a.Length1), total, a.Length1);
  }

  /** `a[:] = s` on a one-dimensional int array. */
  method CopyInts(a: array<int>, s: seq<int>)
    requires |s| == a.Length
    modifies a
    ensures a[..] == s
  {
    forall k | 0 <= k < a.Length {
      a[k] := s[k];
    }
  }

  /** `a[:] = s` on a two-dimensional int array. */
  method CopyGrid(a: array2<int>, s: seq<seq<int>>)
    requires IsGrid(s, a.Length0, a.Length1)
    modifies a
    ensures Rows(a) == s
  {
    forall i, j | 0 <= i < a.Length0 && 0 <= j < a.Length1 {
      a[i, j] := s[i][j];
    }
    GridExtensional(Rows(a), s, a.Length0, a.Length1);
  }

  /** `a[:] = 0` on a two-dimensional int array. */
  method FillGrid(a: array2<int>)
    modifies a
    ensures Rows(a) == ZeroGrid(a.Length0, a.Length1)
  {
    forall i, j | 0 <= i < a.Length0 && 0 <= j < a.Length1 {
      a[i, j] := 0;
    }
    GridExtensional(Rows(a), ZeroGrid(a.Length0, a.Length1), a.Length0, a.Length1);
  }

  /** `a[:] = x` on a one-dimensional int array. */
  method FillInts(a: array<int>, x: int)
    modifies a
    ensures a[..] == seq(a.Length, _ => x)
    ensures x == 0 ==> a[..] == Zeros(a.Length)
  {
    forall k | 0 <= k < a.Length {
      a[k] := x;
    }
  }

  /** `a[:] = b` on a one-dimensional bool array. */
  method FillBools(a: array<bool>, b: bool)
    modifies a
    ensures a[..] == Filled(a.Length, b)
  {
    forall k | 0 <= k < a.Length {
      a[k] := b;
    }
  }

  /** Two grids of the same shape with the same cells are equal. */
  lemma GridExtensional(a: seq<seq<int>>, b: seq<seq<int>>, rows: int, cols: int)
    requires IsGrid(a, rows, cols) && IsGrid(b, rows, cols)
    requires forall i, j :: 0 <= i < rows && 0 <= j < cols ==> a[i][j] == b[i][j]
    ensures a == b
  {
    forall i | 0 <= i < rows
      ensures a[i] == b[i]
    {
      assert forall j :: 0 <= j < cols ==> a[i][j] == b[i][j];
    }
  }

  /** `_resolve(gpu, tid, operand)` on the object. */
  function Resolve(gpu: TinyGPU, tid: int, o: Operand): (r: Result<Instructions.Value>)
    reads gpu, gpu.registers, gpu.memory, gpu.pc, gpu.active, gpu.flags,
          gpu.syncWaiting, gpu.syncWaitingBlock, gpu.shared
    requires gpu.Valid() && 0 <= tid < gpu.numThreads
    ensures r == Instructions.Resolve(gpu.Model(), tid, o)
  {
    match o
    case Reg(idx) =>
      (match PyIndex(idx, gpu.numRegisters)
       case Some(j) => Ok(Instructions.Int(gpu.registers[tid, j]))
       case None => Err(IndexError))
    case Imm(v) => Ok(Instructions.Int(v))
    case Label(name) => Ok(Instructions.Str(name))
  }

  /** `op_set(gpu, tid, rd, src)` */
  method OpSet(gpu: TinyGPU, tid: int, dst: Operand, src: Operand) returns (err: Option<Exception>)
    requires gpu.Valid() && 0 <= tid < gpu.numThreads
    modifies gpu.registers
    ensures gpu.Valid()
    ensures Agrees(Instructions.Set(old(gpu.Model()), tid, dst, src), old(gpu.Model()), gpu.Model(), err)
  {
    if !dst.Reg? {
      return Some(TypeError);
    }
    var v := Resolve(gpu, tid, src);
    if v.Err? {
      return Some(v.error);
    }
    err := gpu.StoreRegister(tid, dst.index, v.value);
  }

  /** `op_add(gpu, tid, rd, a, b)` */
  method OpAdd(gpu: TinyGPU, tid: int, dst: Operand, a: Operand, b: Operand) returns (err: Option<Exception>)
    requires gpu.Valid() && 0 <= tid < gpu.numThreads
    modifies gpu.registers
    ensures gpu.Valid()
    ensures Agrees(Instructions.Add(old(gpu.Model()), tid, dst, a, b), old(gpu.Model()), gpu.Model(), err)
  {
    if !dst.Reg? {
      return Some(TypeError);
    }
    var v1 := Resolve(gpu, tid, a);
    if v1.Err? {
      return Some(v1.error);
    }
    var v2 := Resolve(gpu, tid, b);
    if v2.Err? {
      return Some(v2.error);
    }
    var v := Instructions.Plus(v1.value, v2.value);
    if v.Err? {
      return Some(v.error);
    }
    err := gpu.StoreRegister(tid, dst.index, v.value);
  }

  /** `op_mul(gpu, tid, rd, a, b)` */
  method OpMul(gpu: TinyGPU, tid: int, dst: Operand, a: Operand, b: Operand) returns (err: Option<Exception>)
    requires gpu.Valid() && 0 <= tid < gpu.numThreads
    modifies gpu.registers
    ensures gpu.Valid()
    ensures Agrees(Instructions.Mul(old(gpu.Model()), tid, dst, a, b), old(gpu.Model()), gpu.Model(), err)
  {
    if !dst.Reg? {
      return Some(TypeError);
    }
    var v1 := Resolve(gpu, tid, a);
    if v1.Err? {
      return Some(v1.error);
    }
    var v2 := Resolve(gpu, tid, b);
    if v2.Err? {
      return Some(v2.error);
    }
    var v := Instructions.Times(v1.value, v2.value);
    if v.Err? {
      return Some(v.error);
    }
    err := gpu.StoreRegister(tid, dst.index, v.value);
  }

  /** `op_ld(gpu, tid, rd, addr)` */
  method OpLd(gpu: TinyGPU, tid: int, dst: Operand, addr: Operand) returns (err: Option<Exception>)
    requires gpu.Valid() && 0 <= tid < gpu.numThreads
    modifies gpu.registers
    ensures gpu.Valid()
    ensures Agrees(Instructions.Ld(old(gpu.Model()), tid, dst, addr), old(gpu.Model()), gpu.Model(), err)
  {
    if !dst.Reg? {
      return Some(TypeError);
    }
    var av := Resolve(gpu, tid, addr);
    if av.Err? {
      return Some(av.error);
    }
    var a := Instructions.ToInt(av.value);
    if a.Err? {
      return Some(a.error);
    }
    var k := PyIndex(a.value, gpu.memSize);
    if k.None? {
      return Some(IndexError);
    }
    err := gpu.StoreRegister(tid, dst.index, Instructions.Int(gpu.memory[k.value]));
  }

  /** `op_st(gpu, tid, addr, src)` */
  method OpSt(gpu: TinyGPU, tid: int, addr: Operand, src: Operand) returns (err: Option<Exception>)
    requires gpu.Valid() && 0 <= tid < gpu.numThreads
    modifies gpu.memory
    ensures gpu.Valid()
    ensures Agrees(Instructions.St(old(gpu.Model()), tid, addr, src), old(gpu.Model()), gpu.Model(), err)
  {
    var av := Resolve(gpu, tid, addr);
    if av.Err? {
      return Some(av.error);
    }
    var a := Instructions.ToInt(av.value);
    if a.Err? {
      return Some(a.error);
    }
    var sv := Resolve(gpu, tid, src);
    if sv.Err? {
      return Some(sv.error);
    }
    var x := Instructions.ToInt(sv.value);
    if x.Err? {
      return Some(x.error);
    }
    var k := PyIndex(a.value, gpu.memSize);
    if k.None? {
      return Some(IndexError);
    }
    if !IsInt32(x.value) {
      return Some(OverflowError);
    }
    gpu.memory[k.value] := x.value;
    err := None;
  }
}
