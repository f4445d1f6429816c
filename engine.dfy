/** The execution engine of `TinyGPU` as functions on the state value: grid
    configuration, program and kernel loading, the per-cycle step (thread
    execution, the two barriers, the history record), `run`, `snapshot` and
    `rewind`. The class in TinyGpu is proved to compute exactly these. */
module Engine {
  import opened Py
  import opened Store
  import Instructions

  /** The state after an operation and the exception it raised, if any. When
      an exception is raised the state is the one reached at that point:
      NumPy writes made before it stay. */
  datatype Outcome = Outcome(gpu: Gpu, error: Option<Exception>)

  /** The register file of a fresh engine: the global thread id sits in R7,
      or in R0 when there are no more than 7 registers. */
  function InitialRegisters(nt: nat, nr: nat): (r: seq<seq<int>>)
    ensures IsGrid(r, nt, nr)
  {
    seq(nt, t => seq(nr, j => if (nr > 7 && j == 7) || (nr <= 7 && j == 0) then t else 0))
  }

  /** `TinyGPU(num_threads, num_registers, mem_size)`: one block holding every
      thread, no shared memory, empty history and program. */
  function Init(nt: int, nr: int, ms: int): (g: Gpu)
    requires nt >= 0 && nr >= 0 && ms >= 0
    requires nt == 0 || nr > 0
    ensures WellFormed(g)
  {
    Gpu(nt, nr, ms, 1, nt, 0,
        InitialRegisters(nt, nr), Zeros(ms), Zeros(nt), Filled(nt, true), Zeros(nt),
        Filled(nt, false), Filled(nt, false), ZeroGrid(1, 0),
        NoHistory, [], map[])
  }

  /** `TinyGPU(num_threads, num_registers, mem_size)` with its exceptions:
      `np.zeros` refuses a negative size with ValueError, and with threads
      but no register the seeding loop's `registers[tid, 0]` raises
      IndexError. Python hands out no object in either case. */
  function New(nt: int, nr: int, ms: int): (r: Result<Gpu>)
    ensures r.Ok? <==> nt >= 0 && nr >= 0 && ms >= 0 && (nt == 0 || nr > 0)
    ensures r.Ok? ==> r.value == Init(nt, nr, ms)
    ensures r.Err? ==> r.error == (if nt < 0 || nr < 0 || ms < 0 then ValueError else IndexError)
  {
    if nt < 0 || nr < 0 || ms < 0 then Err(ValueError)
    else if nt > 0 && nr == 0 then Err(IndexError)
    else Ok(Init(nt, nr, ms))
  }

  /** The register rows `set_grid` keeps when it reallocates for `total`
      threads: rows of threads that still exist are copied, new rows are zero. */
  function ResizedRows(regs: seq<seq<int>>, total: nat, nr: nat): (r: seq<seq<int>>)
    requires IsGrid(regs, |regs|, nr)
    ensures IsGrid(r, total, nr)
    ensures forall t, j :: 0 <= t < total && 0 <= j < nr ==> r[t][j] == if t < |regs| then regs[t][j] else 0
  {
    var rows := seq(total, t => if 0 <= t < |regs| then regs[t] else Zeros(nr));
    assert forall t :: 0 <= t < total ==> rows[t] == (if t < |regs| then regs[t] else Zeros(nr));
    rows
  }

  /** The registers after the identity seeding of `set_grid`: R5 holds the
      block id `tid // tpb`, R6 the thread's index in its block `tid % tpb`,
      where those registers exist. */
  function Seeded(regs: seq<seq<int>>, tpb: int): (r: seq<seq<int>>)
    requires |regs| == 0 || tpb > 0
    ensures |r| == |regs| && forall t :: 0 <= t < |r| ==> |r[t]| == |regs[t]|
  {
    seq(|regs|, t requires 0 <= t < |regs| =>
      seq(|regs[t]|, j requires 0 <= j < |regs[t]| =>
        if j == 5 then t / tpb else if j == 6 then t % tpb else regs[t][j]))
  }

  /** `set_grid(num_blocks, threads_per_block, shared_size)`: when the thread
      count changes, the per-thread arrays are reallocated (pc 0, every thread
      active, flags 0, nobody waiting); shared memory is always reallocated
      and zeroed; then R5 and R6 are seeded. */
  function SetGrid(g: Gpu, nb: int, tpb: int, s: int): (r: Gpu)
    requires WellFormed(g) && nb >= 0 && tpb >= 0 && s >= 0
    ensures WellFormed(r)
  {
    var total := nb * tpb;
    var resize := total != g.numThreads;
    var regs := if resize then ResizedRows(g.regs, total, g.numRegisters) else g.regs;
    assert total > 0 ==> tpb > 0 by {
      if total > 0 { PositiveFactor(nb, tpb); }
    }
    Gpu(total, g.numRegisters, g.memSize, nb, tpb, s,
        Seeded(regs, tpb),
        g.mem,
        if resize then Zeros(total) else g.pc,
        if resize then Filled(total, true) else g.active,
        if resize then Zeros(total) else g.flags,
        if resize then Filled(total, false) else g.syncWaiting,
        if resize then Filled(total, false) else g.syncWaitingBlock,
        ZeroGrid(nb, s),
        g.history,
        g.program, g.labels)
  }

  /** `load_program(program, labels)`; `labels or {}` makes a missing table empty. */
  function LoadProgram(g: Gpu, program: seq<Instr>, labels: Option<map<string, int>>): (r: Gpu)
    requires WellFormed(g)
    ensures WellFormed(r)
  {
    g.(program := program,
       labels := if labels.Some? then labels.value else map[],
       pc := Zeros(g.numThreads),
       syncWaiting := Filled(g.numThreads, false),
       syncWaitingBlock := Filled(g.numThreads, false),
       active := Filled(g.numThreads, true),
       history := NoHistory)
  }

  /** A register row after the kernel arguments are written into R0, R1, ... */
  function WithArgs(row: seq<int>, args: seq<int>): (r: seq<int>)
    ensures |r| == |row|
    ensures forall i :: 0 <= i < |row| ==> r[i] == if i < |args| then args[i] else row[i]
  {
    seq(|row|, i requires 0 <= i < |row| => if i < |args| then args[i] else row[i])
  }

  /** The first argument written into a register that does not fit an int32
      cell; storing it raises OverflowError. */
  function FirstOverflow(args: seq<int>, nr: int): (r: Option<nat>)
    ensures r.Some? ==> r.value < |args| && r.value < nr && !IsInt32(args[r.value])
    ensures r.Some? ==> forall i :: 0 <= i < r.value ==> IsInt32(args[i])
    ensures r.None? ==> forall i :: 0 <= i < |args| && i < nr ==> IsInt32(args[i])
  {
    if args == [] || nr <= 0 then None
    else if !IsInt32(args[0]) then Some(0)
    else match FirstOverflow(args[1..], nr - 1)
      case None => None
      case Some(k) => Some(k + 1)
  }

  /** The argument loop of `load_kernel`: every thread in tid order gets
      argument i in register i (for i below the register count). An argument
      that does not fit int32 raises OverflowError in thread 0, after the
      arguments before it were written; an empty list writes nothing. */
  function WriteArgs(g: Gpu, args: seq<int>): (o: Outcome)
    requires WellFormed(g)
    ensures WellFormed(o.gpu)
  {
    if args == [] then Outcome(g, None)
    else
      var bad := FirstOverflow(args, g.numRegisters);
      if bad.Some? && g.numThreads > 0 then
        Outcome(g.(regs := g.regs[0 := WithArgs(g.regs[0], args[..bad.value])]), Some(OverflowError))
      else
        Outcome(g.(regs := seq(g.numThreads, t requires 0 <= t < g.numThreads => WithArgs(g.regs[t], args))), None)
  }

  /** `load_kernel(program, labels, grid=(num_blocks, tpb), args, shared_size)`;
      a tpb of None keeps the current threads_per_block. Arguments go into
      the registers after the grid is seeded, so they may overwrite R5 and R6. */
  function LoadKernel(g: Gpu, program: seq<Instr>, labels: Option<map<string, int>>,
                      nb: int, tpb: Option<int>, args: seq<int>, s: int): (o: Outcome)
    requires WellFormed(g) && nb >= 0 && s >= 0 && (tpb.Some? ==> tpb.value >= 0)
    ensures WellFormed(o.gpu)
  {
    var t := if tpb.Some? then tpb.value else g.threadsPerBlock;
    var w := WriteArgs(SetGrid(g, nb, t, s), args);
    if w.error.Some? then w else Outcome(LoadProgram(w.gpu, program, labels), None)
  }

  /** h differs from g at most in the registers, memory, pc and active flags. */
  predicate SameOtherwise(g: Gpu, h: Gpu) {
    && WellFormed(h)
    && h.(regs := g.regs, mem := g.mem, pc := g.pc, active := g.active) == g
  }

  /** Thread t has the same registers, pc and active flag in g and h. */
  predicate Untouched(g: Gpu, h: Gpu, t: int)
    requires WellFormed(g) && WellFormed(h) && h.numThreads == g.numThreads && 0 <= t < g.numThreads
  {
    h.regs[t] == g.regs[t] && h.pc[t] == g.pc[t] && h.active[t] == g.active[t]
  }

  /** The body of the `while True` loop of `_execute_threads` for one active
      thread: run instructions until one changes pc or leaves the thread
      waiting, or pc leaves the program and the thread is deactivated. */
  function RunThread(g: Gpu, tid: int): (o: Outcome)
    requires WellFormed(g) && 0 <= tid < g.numThreads
    ensures SameOtherwise(g, o.gpu)
    ensures forall t :: 0 <= t < g.numThreads && t != tid ==> Untouched(g, o.gpu, t)
    decreases |g.program| - g.pc[tid]
  {
    var p := g.pc[tid];
    if p < 0 || p >= |g.program| then
      Outcome(g.(active := g.active[tid := false]), None)
    else
      match Instructions.Execute(g, tid, g.program[p])
      case Err(e) => Outcome(g, Some(e))
      case Ok(g1) =>
        if g1.pc[tid] != p || g1.syncWaiting[tid] || g1.syncWaitingBlock[tid] then Outcome(g1, None)
        else
          var g2 := g1.(pc := g1.pc[tid := p + 1]);
          assert forall t :: 0 <= t < g.numThreads && t != tid ==> Untouched(g, g2, t);
          var o := RunThread(g2, tid);
          assert o.gpu.numThreads == g2.numThreads == g.numThreads;
          assert forall t :: 0 <= t < g.numThreads && t != tid ==> Untouched(g, o.gpu, t) by {
            forall t | 0 <= t < g.numThreads && t != tid
              ensures Untouched(g, o.gpu, t)
            {
              assert Untouched(g, g2, t);
              assert Untouched(g2, o.gpu, t);
            }
          }
          o
  }

  /** `_execute_threads` from thread tid on: threads run one after the other
      in tid order, inactive ones are skipped, and an exception stops the
      cycle where it was raised. */
  function ExecFrom(g: Gpu, tid: int): (o: Outcome)
    requires WellFormed(g) && 0 <= tid <= g.numThreads
    ensures SameOtherwise(g, o.gpu)
    ensures forall t :: 0 <= t < g.numThreads && (t < tid || !g.active[t]) ==> Untouched(g, o.gpu, t)
    decreases g.numThreads - tid
  {
    if tid == g.numThreads then Outcome(g, None)
    else if !g.active[tid] then ExecFrom(g, tid + 1)
    else
      var o := RunThread(g, tid);
      if o.error.Some? then o
      else
        assert forall t :: 0 <= t < g.numThreads && t != tid ==> Untouched(g, o.gpu, t);
        var o2 := ExecFrom(o.gpu, tid + 1);
        assert forall t :: 0 <= t < g.numThreads && (t < tid || !g.active[t]) ==> Untouched(g, o2.gpu, t) by {
          forall t | 0 <= t < g.numThreads && (t < tid || !g.active[t])
            ensures Untouched(g, o2.gpu, t)
          {
            assert t != tid;
            assert Untouched(g, o.gpu, t);
            assert Untouched(o.gpu, o2.gpu, t);
          }
        }
        o2
  }

  function ExecuteThreads(g: Gpu): (o: Outcome)
    requires WellFormed(g)
    ensures SameOtherwise(g, o.gpu)
    ensures forall t :: 0 <= t < g.numThreads && !g.active[t] ==> Untouched(g, o.gpu, t)
  {
    ExecFrom(g, 0)
  }

  predicate AnyActive(g: Gpu)
    requires WellFormed(g)
  {
    exists t :: 0 <= t < g.numThreads && g.active[t]
  }

  /** A barrier over the threads [lo, hi) may open: one of them is active and
      every active one waits at it (`waiting[active]` is non-empty and all
      true). */
  predicate Quorum(active: seq<bool>, waiting: seq<bool>, lo: int, hi: int)
    requires 0 <= lo <= hi <= |active| && hi <= |waiting|
  {
    && (exists t :: lo <= t < hi && active[t])
    && (forall t :: lo <= t < hi && active[t] ==> waiting[t])
  }

  /** The release loop shared by both barriers: every active thread of
      [lo, hi) that waits moves one instruction on and stops waiting. */
  function Release(active: seq<bool>, pc: seq<int>, waiting: seq<bool>, lo: int, hi: int): (r: (seq<int>, seq<bool>))
    requires |pc| == |active| && |waiting| == |active|
    ensures |r.0| == |pc| && |r.1| == |pc|
  {
    (seq(|pc|, t requires 0 <= t < |pc| => if lo <= t < hi && active[t] && waiting[t] then pc[t] + 1 else pc[t]),
     seq(|pc|, t requires 0 <= t < |pc| => if lo <= t < hi && active[t] && waiting[t] then false else waiting[t]))
  }

  /** The grid-wide barrier may open. */
  predicate GlobalQuorum(g: Gpu)
    requires WellFormed(g)
  {
    Quorum(g.active, g.syncWaiting, 0, g.numThreads)
  }

  /** `_handle_global_barrier` */
  function GlobalBarrier(g: Gpu): (r: Gpu)
    requires WellFormed(g)
    ensures WellFormed(r)
  {
    if (exists t :: 0 <= t < g.numThreads && g.syncWaiting[t]) && GlobalQuorum(g) then
      var (p, w) := Release(g.active, g.pc, g.syncWaiting, 0, g.numThreads);
      g.(pc := p, syncWaiting := w)
    else g
  }

  /** The barrier of block b may open. */
  predicate BlockQuorum(g: Gpu, b: int)
    requires WellFormed(g)
  {
    var lo := b * g.threadsPerBlock;
    var hi := lo + g.threadsPerBlock;
    0 <= lo && hi <= g.numThreads && Quorum(g.active, g.syncWaitingBlock, lo, hi)
  }

  /** Thread t leaves the barrier of its block in this cycle. */
  predicate BlockReleases(g: Gpu, t: int)
    requires WellFormed(g) && 0 <= t < g.numThreads
  {
    g.active[t] && g.syncWaitingBlock[t] && BlockQuorum(g, BlockOf(g, t))
  }

  /** The block loop of `_handle_block_barriers` from block b on: each block
      with a quorum releases its own range [b*tpb, b*tpb + tpb) of threads. */
  function ReleaseFrom(active: seq<bool>, pc: seq<int>, waiting: seq<bool>, nb: int, tpb: int, b: int): (r: (seq<int>, seq<bool>))
    requires tpb >= 0 && 0 <= b <= nb && |active| == nb * tpb && |pc| == |active| && |waiting| == |active|
    ensures |r.0| == |pc| && |r.1| == |pc|
    decreases nb - b
  {
    if b == nb then (pc, waiting)
    else
      var lo := b * tpb;
      BlockInGrid(b, nb, tpb);
      if Quorum(active, waiting, lo, lo + tpb) then
        var (p, w) := Release(active, pc, waiting, lo, lo + tpb);
        ReleaseFrom(active, p, w, nb, tpb, b + 1)
      else ReleaseFrom(active, pc, waiting, nb, tpb, b + 1)
  }

  /** `_handle_block_barriers` */
  function BlockBarriers(g: Gpu): (r: Gpu)
    requires WellFormed(g)
    ensures WellFormed(r)
  {
    if !(exists t :: 0 <= t < g.numThreads && g.syncWaitingBlock[t]) then g
    else
      var (p, w) := ReleaseFrom(g.active, g.pc, g.syncWaitingBlock, g.numBlocks, g.threadsPerBlock, 0);
      g.(pc := p, syncWaitingBlock := w)
  }

  /** `_record_history`: a copy of registers, memory, pc, flags and shared
      memory goes at the end of the five history lists. */
  function RecordHistory(g: Gpu): (r: Gpu)
    requires WellFormed(g)
    ensures WellFormed(r)
  {
    g.(history := g.history.Appended(g.regs, g.mem, g.pc, g.flags, g.shared))
  }

  /** `step`: execute, release the grid barrier, release the block barriers,
      record. An exception during execution ends the step there. */
  function Step(g: Gpu): (o: Outcome)
    requires WellFormed(g)
    ensures WellFormed(o.gpu)
  {
    var e := ExecuteThreads(g);
    if e.error.Some? then e
    else Outcome(RecordHistory(BlockBarriers(GlobalBarrier(e.gpu))), None)
  }

  /** `run(max_cycles)`: step while some thread is active, at most max_cycles times. */
  function Run(g: Gpu, maxCycles: int): (o: Outcome)
    requires WellFormed(g)
    ensures WellFormed(o.gpu)
    decreases maxCycles, 1
  {
    if maxCycles <= 0 || !AnyActive(g) then Outcome(g, None)
    else StepAndRun(g, maxCycles)
  }

  /** The rest of `run` once it has decided to step: one step, then the
      remaining cycles unless the step raised. */
  function StepAndRun(g: Gpu, maxCycles: int): (o: Outcome)
    requires WellFormed(g) && maxCycles > 0
    ensures WellFormed(o.gpu)
    decreases maxCycles, 0
  {
    var s := Step(g);
    if s.error.Some? then s else Run(s.gpu, maxCycles - 1)
  }

  /** One round of `run`: with cycles left and a thread active, it steps
      once and goes on from the state that step leaves. */
  lemma RunUnfolds(g: Gpu, k: int)
    requires WellFormed(g) && k > 0 && AnyActive(g)
    ensures Run(g, k) == (var s := Step(g); if s.error.Some? then s else Run(s.gpu, k - 1))
  {
  }

  /** The dictionary `snapshot` returns. */
  datatype View = View(
    cycle: nat,
    pc: seq<int>,
    active: seq<bool>,
    flags: seq<int>,
    registers: map<int, seq<int>>,
    memorySlice: seq<int>,
    shared: seq<seq<int>>)

  /** `snapshot(mem_slice, regs_threads)`: memory is sliced the Python way,
      and a requested thread id is indexed the Python way (IndexError when
      it is out of range; the dictionary key stays the id as given). */
  function Snapshot(g: Gpu, memSlice: Option<(int, int)>, regsThreads: Option<seq<int>>): (r: Result<View>)
    requires WellFormed(g)
  {
    var memView := if memSlice.Some? then PySlice(g.mem, memSlice.value.0, memSlice.value.1) else g.mem;
    if regsThreads.None? then
      Ok(View(Cycles(g), g.pc, g.active, g.flags,
                  map t | 0 <= t < g.numThreads :: g.regs[t], memView, g.shared))
    else if exists t :: t in regsThreads.value && PyIndex(t, g.numThreads).None? then Err(IndexError)
    else
      Ok(View(Cycles(g), g.pc, g.active, g.flags,
                  map t | t in regsThreads.value :: g.regs[PyIndex(t, g.numThreads).value],
                  memView, g.shared))
  }

  /** `rewind(cycles)`: restore registers, memory, pc, flags and shared memory
      from the entry before the last `cycles` ones and drop those entries; at
      the very beginning the arrays are zeroed instead. */
  function Rewind(g: Gpu, cycles: int): (r: Result<Gpu>)
    requires WellFormed(g) && HistoryShaped(g)
  {
    var n := |g.history.registers|;
    if cycles <= 0 then Ok(g)
    else if cycles > n then Err(ValueError)
    else
      var target := n - cycles;
      var restored :=
        if target == 0 then
          g.(regs := ZeroGrid(g.numThreads, g.numRegisters),
             mem := Zeros(g.memSize),
             pc := Zeros(g.numThreads),
             flags := Zeros(g.numThreads),
             shared := ZeroGrid(g.numBlocks, g.sharedSize))
        else
          g.(regs := g.history.registers[target - 1],
             mem := g.history.memory[target - 1],
             pc := g.history.pc[target - 1],
             flags := g.history.flags[target - 1],
             shared := g.history.shared[target - 1]);
      Ok(restored.(history := g.history.Prefix(target)))
  }

}
