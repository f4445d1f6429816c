/** What the engine promises, proved about the Engine functions: the shape
    of a grid after `set_grid`, the resets of `load_program` and
    `load_kernel`, how far one thread runs in a cycle, the quorum rule of
    both barriers, the history record of `step`, the cycle cap of `run` and
    the restore-and-truncate of `rewind`. */
module EngineLemmas {
  import opened Py
  import opened Store
  import opened Engine
  import Instructions

  // ---------------------------------------------------------------------
  // Barriers
  // ---------------------------------------------------------------------

  /** The grid-wide barrier opens exactly when it has a quorum; it then moves
      every active waiting thread one instruction on and clears its flag,
      and touches nothing else. */
  lemma GlobalBarrierReleases(g: Gpu)
    requires WellFormed(g)
    ensures var r := GlobalBarrier(g);
      && r == g.(pc := r.pc, syncWaiting := r.syncWaiting)
      && |r.pc| == g.numThreads && |r.syncWaiting| == g.numThreads
      && (forall t :: 0 <= t < g.numThreads ==>
            var released := GlobalQuorum(g) && g.active[t] && g.syncWaiting[t];
            && r.pc[t] == (if released then g.pc[t] + 1 else g.pc[t])
            && r.syncWaiting[t] == (if released then false else g.syncWaiting[t]))
      && (r != g <==> GlobalQuorum(g))
  {
    var r := GlobalBarrier(g);
    if GlobalQuorum(g) {
      var t :| 0 <= t < g.numThreads && g.active[t];
      assert g.syncWaiting[t];
      assert r.pc[t] != g.pc[t];
    }
  }

  /** Thread t lies in block b when it is in [b*tpb, b*tpb + tpb). */
  predicate InBlock(t: int, b: int, tpb: int) {
    b * tpb <= t < b * tpb + tpb
  }

  /** Thread t leaves its block barrier: the block holding t, the threads
      [lo, lo + tpb) with lo = (t // tpb) * tpb, has a quorum on `waiting`,
      and t is active and waiting. */
  predicate ReleasedIn(active: seq<bool>, waiting: seq<bool>, tpb: int, t: int)
    requires |waiting| == |active| && 0 <= t < |active|
  {
    && tpb > 0
    && var lo := (t / tpb) * tpb;
    && 0 <= lo && lo + tpb <= |active|
    && Quorum(active, waiting, lo, lo + tpb)
    && active[t] && waiting[t]
  }

  /** The block of t, by `//`, is the block whose range holds t. */
  lemma BlockOfThread(t: int, tpb: int)
    requires 0 <= t && tpb > 0
    ensures 0 <= t / tpb && InBlock(t, t / tpb, tpb)
  {
    var q, r := t / tpb, t % tpb;
    assert t == q * tpb + r && 0 <= r < tpb;
  }

  /** A block's quorum only looks at its own threads. */
  lemma QuorumFrame(active: seq<bool>, w1: seq<bool>, w2: seq<bool>, lo: int, hi: int)
    requires 0 <= lo <= hi <= |active| && |w1| == |active| && |w2| == |active|
    requires forall t :: lo <= t < hi ==> w1[t] == w2[t]
    ensures Quorum(active, w1, lo, hi) == Quorum(active, w2, lo, hi)
  {
  }

  /** The block loop from block b on releases a thread t of a later block
      exactly when the quorum rule holds for its block on the waiting flags
      the loop started with; threads of earlier blocks are left alone. */
  lemma {:induction false} ReleaseFromAt(active: seq<bool>, pc: seq<int>, waiting: seq<bool>, nb: int, tpb: int, b: int, t: int)
    requires tpb >= 0 && 0 <= b <= nb && |active| == nb * tpb && |pc| == |active| && |waiting| == |active|
    requires 0 <= t < |active|
    ensures var r := ReleaseFrom(active, pc, waiting, nb, tpb, b);
      var released := b * tpb <= t && ReleasedIn(active, waiting, tpb, t);
      && r.0[t] == (if released then pc[t] + 1 else pc[t])
      && r.1[t] == (if released then false else waiting[t])
    decreases nb - b
  {
    if b < nb {
      var lo := b * tpb;
      BlockInGrid(b, nb, tpb);
      var p, w := pc, waiting;
      if Quorum(active, waiting, lo, lo + tpb) {
        p, w := Release(active, pc, waiting, lo, lo + tpb).0, Release(active, pc, waiting, lo, lo + tpb).1;
      }
      assert ReleaseFrom(active, pc, waiting, nb, tpb, b) == ReleaseFrom(active, p, w, nb, tpb, b + 1);
      ReleaseFromAt(active, p, w, nb, tpb, b + 1, t);
      assert (b + 1) * tpb == lo + tpb;
      if lo + tpb <= t {
        // t belongs to a later block, whose flags the release of block b left alone
        BlockOfThread(t, tpb);
        var c := t / tpb;
        LaterBlock(c, b, tpb, t);
        if c * tpb + tpb <= |active| {
          QuorumFrame(active, waiting, w, c * tpb, c * tpb + tpb);
        }
      } else if lo <= t {
        // t belongs to block b itself
        BlockOfRange(b, tpb, t);
      }
    }
  }

  /** A thread of block c at or after the end of block b has c > b, so
      block c's range lies after block b's. */
  lemma LaterBlock(c: int, b: int, tpb: int, t: int)
    requires tpb > 0 && 0 <= b && InBlock(t, c, tpb) && b * tpb + tpb <= t
    ensures b * tpb + tpb <= c * tpb
  {
    if c <= b {
      MulMonotone(c, b, tpb);
    } else {
      MulMonotone(b + 1, c, tpb);
    }
  }

  /** `_handle_block_barriers` applies the quorum rule to every block on its
      own: a thread moves one instruction on and stops waiting exactly when
      it is active, waiting, and every active thread of its block waits (so
      a block with no active thread is skipped); nothing else changes. */
  lemma BlockBarriersRelease(g: Gpu)
    requires WellFormed(g)
    ensures var r := BlockBarriers(g);
      && r == g.(pc := r.pc, syncWaitingBlock := r.syncWaitingBlock)
      && |r.pc| == g.numThreads && |r.syncWaitingBlock| == g.numThreads
      && (forall t :: 0 <= t < g.numThreads ==>
            var released := BlockReleases(g, t);
            && r.pc[t] == (if released then g.pc[t] + 1 else g.pc[t])
            && r.syncWaitingBlock[t] == (if released then false else g.syncWaitingBlock[t]))
  {
    var r := BlockBarriers(g);
    forall t | 0 <= t < g.numThreads
      ensures var released := BlockReleases(g, t);
        && r.pc[t] == (if released then g.pc[t] + 1 else g.pc[t])
        && r.syncWaitingBlock[t] == (if released then false else g.syncWaitingBlock[t])
    {
      BlockReleasesIff(g, t);
      if exists u :: 0 <= u < g.numThreads && g.syncWaitingBlock[u] {
        ReleaseFromAt(g.active, g.pc, g.syncWaitingBlock, g.numBlocks, g.threadsPerBlock, 0, t);
      } else {
        assert !g.syncWaitingBlock[t];
      }
    }
  }

  /** BlockReleases, the per-thread rule, in terms of the block ranges. */
  lemma BlockReleasesIff(g: Gpu, t: int)
    requires WellFormed(g) && 0 <= t < g.numThreads
    ensures BlockReleases(g, t) == ReleasedIn(g.active, g.syncWaitingBlock, g.threadsPerBlock, t)
  {
    PositiveFactor(g.numBlocks, g.threadsPerBlock);
    BlockOfThread(t, g.threadsPerBlock);
  }

  // ---------------------------------------------------------------------
  // Thread execution
  // ---------------------------------------------------------------------

  /** No handler of the dispatch table moves pc, sets a flag or a wait flag,
      or changes whether a thread is active: each writes one register or one
      memory cell. */
  lemma HandlersKeepControl(g: Gpu, tid: int, ins: Instr)
    requires WellFormed(g) && 0 <= tid < g.numThreads
    ensures var r := Instructions.Execute(g, tid, ins);
      r.Ok? ==> && r.value.pc == g.pc && r.value.active == g.active && r.value.flags == g.flags
                && r.value.syncWaiting == g.syncWaiting && r.value.syncWaitingBlock == g.syncWaitingBlock
                && r.value.program == g.program && r.value.history == g.history
  {
  }

  /** The pc a thread ends a cycle on when no instruction moves it: the end
      of the program, or where it already was when that is past the end. */
  function EndPc(pc: int, len: nat): int {
    if pc < len then len else pc
  }

  /** A thread that is not waiting runs every instruction from its pc to the
      end of the program in one cycle (since no handler moves pc or sets a
      wait flag) and is then deactivated, unless a handler raises. */
  lemma {:induction false} RunThreadDrains(g: Gpu, tid: int)
    requires WellFormed(g) && 0 <= tid < g.numThreads
    requires 0 <= g.pc[tid] && !g.syncWaiting[tid] && !g.syncWaitingBlock[tid]
    ensures var o := RunThread(g, tid);
      o.error.None? ==> !o.gpu.active[tid] && o.gpu.pc[tid] == EndPc(g.pc[tid], |g.program|)
    decreases |g.program| - g.pc[tid]
  {
    var p := g.pc[tid];
    if p < |g.program| {
      var r := Instructions.Execute(g, tid, g.program[p]);
      if r.Ok? {
        HandlersKeepControl(g, tid, g.program[p]);
        var g2 := r.value.(pc := r.value.pc[tid := p + 1]);
        assert RunThread(g, tid) == RunThread(g2, tid);
        RunThreadDrains(g2, tid);
      }
    }
  }

  /** A thread whose pc is in the program and that is already marked waiting
      runs exactly one instruction and stops there, pc unmoved. */
  lemma RunThreadWaiting(g: Gpu, tid: int)
    requires WellFormed(g) && 0 <= tid < g.numThreads
    requires 0 <= g.pc[tid] < |g.program| && (g.syncWaiting[tid] || g.syncWaitingBlock[tid])
    ensures var o := RunThread(g, tid);
      match Instructions.Execute(g, tid, g.program[g.pc[tid]])
      case Ok(h) => o == Outcome(h, None) && o.gpu.pc[tid] == g.pc[tid] && o.gpu.active[tid] == g.active[tid]
      case Err(e) => o == Outcome(g, Some(e))
  {
    HandlersKeepControl(g, tid, g.program[g.pc[tid]]);
  }

  /** An opcode that is not in the dispatch table changes nothing: the thread
      just goes on with the next instruction in the same cycle. */
  lemma RunThreadSkipsUnknown(g: Gpu, tid: int)
    requires WellFormed(g) && 0 <= tid < g.numThreads
    requires 0 <= g.pc[tid] < |g.program| && g.program[g.pc[tid]].op !in Instructions.Table
    requires !g.syncWaiting[tid] && !g.syncWaitingBlock[tid]
    ensures RunThread(g, tid) == RunThread(g.(pc := g.pc[tid := g.pc[tid] + 1]), tid)
  {
  }

  /** A thread with pc outside the program is deactivated, and nothing else
      changes. */
  lemma RunThreadHalts(g: Gpu, tid: int)
    requires WellFormed(g) && 0 <= tid < g.numThreads
    requires g.pc[tid] < 0 || g.pc[tid] >= |g.program|
    ensures RunThread(g, tid) == Outcome(g.(active := g.active[tid := false]), None)
  {
  }

  /** Every thread ready to run (active, pc not negative, not waiting). */
  predicate AllReady(g: Gpu, from: int)
    requires WellFormed(g)
  {
    forall t :: 0 <= from <= t < g.numThreads && g.active[t] ==>
      g.pc[t] >= 0 && !g.syncWaiting[t] && !g.syncWaitingBlock[t]
  }

  /** `_execute_threads` from thread tid on runs every ready thread to the
      end of the program and deactivates it; inactive threads stay as they
      were. */
  lemma {:induction false} ExecFromDrains(g: Gpu, tid: int)
    requires WellFormed(g) && 0 <= tid <= g.numThreads && AllReady(g, tid)
    ensures var o := ExecFrom(g, tid);
      o.error.None? ==> forall t :: tid <= t < g.numThreads ==>
        && !o.gpu.active[t]
        && o.gpu.pc[t] == (if g.active[t] then EndPc(g.pc[t], |g.program|) else g.pc[t])
    decreases g.numThreads - tid
  {
    if tid < g.numThreads {
      if !g.active[tid] {
        ExecFromDrains(g, tid + 1);
      } else {
        var o := RunThread(g, tid);
        RunThreadDrains(g, tid);
        if o.error.None? {
          ReadyAfterRun(g, tid, o.gpu);
          ExecFromDrains(o.gpu, tid + 1);
          DrainsCombine(g, tid, o.gpu, ExecFrom(o.gpu, tid + 1));
        }
      }
    }
  }

  /** The threads after tid are as ready after tid has run as before. */
  lemma ReadyAfterRun(g: Gpu, tid: int, h: Gpu)
    requires WellFormed(g) && 0 <= tid < g.numThreads && AllReady(g, tid)
    requires SameOtherwise(g, h)
    requires forall t :: 0 <= t < g.numThreads && t != tid ==> Untouched(g, h, t)
    ensures AllReady(h, tid + 1)
  {
    forall t | tid + 1 <= t < h.numThreads && h.active[t]
      ensures h.pc[t] >= 0 && !h.syncWaiting[t] && !h.syncWaitingBlock[t]
    {
      assert Untouched(g, h, t);
    }
  }

  /** The conclusion of ExecFromDrains for tid, from the one for tid + 1. */
  lemma DrainsCombine(g: Gpu, tid: int, h: Gpu, o: Outcome)
    requires WellFormed(g) && 0 <= tid < g.numThreads && g.active[tid]
    requires SameOtherwise(g, h) && SameOtherwise(h, o.gpu)
    requires forall t :: 0 <= t < g.numThreads && t != tid ==> Untouched(g, h, t)
    requires !h.active[tid] && h.pc[tid] == EndPc(g.pc[tid], |g.program|)
    requires forall t :: 0 <= t < h.numThreads && t < tid + 1 ==> Untouched(h, o.gpu, t)
    requires o.error.None? ==> forall t :: tid + 1 <= t < h.numThreads ==>
        && !o.gpu.active[t]
        && o.gpu.pc[t] == (if h.active[t] then EndPc(h.pc[t], |h.program|) else h.pc[t])
    ensures o.error.None? ==> forall t :: tid <= t < g.numThreads ==>
        && !o.gpu.active[t]
        && o.gpu.pc[t] == (if g.active[t] then EndPc(g.pc[t], |g.program|) else g.pc[t])
  {
    if o.error.None? {
      forall t | tid <= t < g.numThreads
        ensures !o.gpu.active[t]
        ensures o.gpu.pc[t] == (if g.active[t] then EndPc(g.pc[t], |g.program|) else g.pc[t])
      {
        if t == tid {
          assert Untouched(h, o.gpu, t);
        } else {
          assert Untouched(g, h, t);
        }
      }
    }
  }

  /** With only ready threads, one step runs each active thread's remaining
      instructions and deactivates it; the barriers then have nothing to
      release, and one snapshot is recorded. */
  lemma StepDrains(g: Gpu)
    requires WellFormed(g) && AllReady(g, 0)
    ensures var s := Step(g);
      s.error.None? ==>
        && !AnyActive(s.gpu)
        && Cycles(s.gpu) == Cycles(g) + 1
        && forall t :: 0 <= t < g.numThreads ==>
             s.gpu.pc[t] == (if g.active[t] then EndPc(g.pc[t], |g.program|) else g.pc[t])
  {
    var e := ExecuteThreads(g);
    ExecFromDrains(g, 0);
    if e.error.None? {
      GlobalBarrierReleases(e.gpu);
      var b := GlobalBarrier(e.gpu);
      BlockBarriersRelease(b);
    }
  }

  /** So `run(m)` from such a state takes exactly one step. */
  lemma RunDrains(g: Gpu, m: int)
    requires WellFormed(g) && AllReady(g, 0) && m > 0 && AnyActive(g)
    ensures Run(g, m) == Step(g)
  {
    StepDrains(g);
    RunUnfolds(g, m);
  }

  // ---------------------------------------------------------------------
  // History, step, run
  // ---------------------------------------------------------------------

  /** The arrays of g are the last entry of its history: what a step leaves,
      and what `rewind` restores. */
  predicate AtLastEntry(g: Gpu)
    requires WellFormed(g)
  {
    var n := |g.history.registers|;
    && n > 0
    && g.history.registers[n - 1] == g.regs
    && g.history.memory[n - 1] == g.mem
    && g.history.pc[n - 1] == g.pc
    && g.history.flags[n - 1] == g.flags
    && g.history.shared[n - 1] == g.shared
  }

  /** `step` appends exactly one snapshot, of the state it ends in, to each
      of the five history lists and keeps the earlier entries; flags, shared
      memory, the configuration and the program are never changed by a
      step. A step that raises records nothing. */
  lemma StepRecords(g: Gpu)
    requires WellFormed(g)
    ensures var s := Step(g);
      && s.gpu == g.(regs := s.gpu.regs, mem := s.gpu.mem, pc := s.gpu.pc, active := s.gpu.active,
                     syncWaiting := s.gpu.syncWaiting, syncWaitingBlock := s.gpu.syncWaitingBlock,
                     history := s.gpu.history)
      && (s.error.Some? ==> s.gpu.history == g.history)
      && (s.error.None? ==>
            && Cycles(s.gpu) == Cycles(g) + 1
            && s.gpu.history.Prefix(Cycles(g)) == g.history
            && AtLastEntry(s.gpu))
  {
    var e := ExecuteThreads(g);
    if e.error.None? {
      GlobalBarrierReleases(e.gpu);
      BlockBarriersRelease(GlobalBarrier(e.gpu));
    }
  }

  /** A step keeps every history entry shaped like the state. */
  lemma StepKeepsShape(g: Gpu)
    requires WellFormed(g) && HistoryShaped(g)
    ensures HistoryShaped(Step(g).gpu)
  {
    StepRecords(g);
  }

  /** `run(m)`: at most m steps, each recording one snapshot on top of the
      earlier history; with no thread active it does nothing; and when it
      stops early without an exception no thread is left active. */
  lemma {:induction false} RunBounded(g: Gpu, m: int)
    requires WellFormed(g)
    ensures var o := Run(g, m);
      && Cycles(g) <= Cycles(o.gpu) <= Cycles(g) + (if m > 0 then m else 0)
      && o.gpu.history.Prefix(Cycles(g)) == g.history
      && (HistoryShaped(g) ==> HistoryShaped(o.gpu))
      && (!AnyActive(g) ==> o == Outcome(g, None))
      && (o.error.None? && Cycles(o.gpu) < Cycles(g) + m ==> !AnyActive(o.gpu))
    decreases m
  {
    if m > 0 && AnyActive(g) {
      RunUnfolds(g, m);
      var s := Step(g);
      StepRecords(g);
      if HistoryShaped(g) {
        StepKeepsShape(g);
      }
      if s.error.None? {
        RunBounded(s.gpu, m - 1);
        PrefixChain(g.history, s.gpu.history, Run(s.gpu, m - 1).gpu.history, Cycles(g));
      } else {
        PrefixWhole(g.history);
      }
    } else {
      PrefixWhole(g.history);
    }
  }

  /** The prefix of a history as long as the history is the history. */
  lemma PrefixWhole(h: History)
    requires h.Aligned()
    ensures h.Prefix(|h.registers|) == h
  {
    assert h.registers[..|h.registers|] == h.registers;
    assert h.memory[..|h.memory|] == h.memory;
    assert h.pc[..|h.pc|] == h.pc;
    assert h.flags[..|h.flags|] == h.flags;
    assert h.shared[..|h.shared|] == h.shared;
  }

  /** A history that extends one extending h by one entry extends h. */
  lemma PrefixChain(h: History, h1: History, h2: History, n: nat)
    requires h.Aligned() && h1.Aligned() && h2.Aligned()
    requires |h.registers| == n && |h1.registers| == n + 1 && |h2.registers| >= n + 1
    requires h1.Prefix(n) == h && h2.Prefix(n + 1) == h1
    ensures h2.Prefix(n) == h
  {
    assert h2.registers[..n] == h2.registers[..n + 1][..n];
    assert h2.memory[..n] == h2.memory[..n + 1][..n];
    assert h2.pc[..n] == h2.pc[..n + 1][..n];
    assert h2.flags[..n] == h2.flags[..n + 1][..n];
    assert h2.shared[..n] == h2.shared[..n + 1][..n];
  }

  /** `snapshot`: its cycle is the number of recorded cycles; it shows the
      current pc, active, flags and shared memory; all register rows when no
      threads are asked for, otherwise the rows asked for (IndexError exactly
      when one of them is out of Python's range); and the memory range asked
      for. */
  lemma SnapshotView(g: Gpu, memSlice: Option<(int, int)>, regsThreads: Option<seq<int>>)
    requires WellFormed(g)
    ensures var r := Snapshot(g, memSlice, regsThreads);
      && (regsThreads.None? ==> r.Ok?)
      && (regsThreads.Some? ==>
            (r.Err? <==> exists t :: t in regsThreads.value && !(-g.numThreads <= t < g.numThreads)))
      && (r.Err? ==> r.error == IndexError)
      && (r.Ok? ==>
            && r.value.cycle == Cycles(g)
            && r.value.pc == g.pc && r.value.active == g.active && r.value.flags == g.flags
            && r.value.shared == g.shared
            && (memSlice.None? ==> r.value.memorySlice == g.mem)
            && (memSlice.Some? && 0 <= memSlice.value.0 <= memSlice.value.1 <= g.memSize ==>
                  r.value.memorySlice == g.mem[memSlice.value.0..memSlice.value.1])
            && (regsThreads.None? ==>
                  && (forall t :: t in r.value.registers <==> 0 <= t < g.numThreads)
                  && forall t :: 0 <= t < g.numThreads ==> r.value.registers[t] == g.regs[t])
            && (regsThreads.Some? ==>
                  && (forall t :: t in r.value.registers <==> t in regsThreads.value)
                  && forall t :: t in regsThreads.value ==>
                       r.value.registers[t] == g.regs[if t < 0 then t + g.numThreads else t]))
  {
  }

  // ---------------------------------------------------------------------
  // Rewind
  // ---------------------------------------------------------------------

  /** `rewind(k)`: k <= 0 does nothing; more cycles than recorded raises
      ValueError and changes nothing; otherwise the history is cut to its
      first n - k entries and registers, memory, pc, flags and shared memory
      become its new last entry, or all zero when nothing is left. Active
      and waiting flags are never restored. */
  lemma RewindRestores(g: Gpu, k: int)
    requires WellFormed(g) && HistoryShaped(g)
    ensures var r := Rewind(g, k);
      var n := Cycles(g);
      && (k <= 0 ==> r == Ok(g))
      && (k > n ==> r == Err(ValueError))
      && (0 < k <= n ==>
            && r.Ok?
            && var h := r.value;
            && WellFormed(h) && HistoryShaped(h)
            && h == g.(regs := h.regs, mem := h.mem, pc := h.pc, flags := h.flags, shared := h.shared,
                       history := h.history)
            && h.history == g.history.Prefix(n - k)
            && (n - k > 0 ==> AtLastEntry(h))
            && (n - k == 0 ==>
                  && h.regs == ZeroGrid(g.numThreads, g.numRegisters) && h.mem == Zeros(g.memSize)
                  && h.pc == Zeros(g.numThreads) && h.flags == Zeros(g.numThreads)
                  && h.shared == ZeroGrid(g.numBlocks, g.sharedSize)))
  {
  }

  /** Rewinding one cycle after a step from a state that was at its last
      history entry gives back that state, except for the active and
      waiting flags, which rewind does not restore. */
  lemma RewindUndoesStep(g: Gpu)
    requires WellFormed(g) && HistoryShaped(g) && AtLastEntry(g)
    requires Step(g).error.None?
    ensures var s := Step(g).gpu;
      HistoryShaped(s) &&
      Rewind(s, 1) == Ok(g.(active := s.active, syncWaiting := s.syncWaiting, syncWaitingBlock := s.syncWaitingBlock))
  {
    StepRecords(g);
    StepKeepsShape(g);
    var s := Step(g).gpu;
    RewindRestores(s, 1);
  }

  // ---------------------------------------------------------------------
  // Configuration and loading
  // ---------------------------------------------------------------------

  /** A fresh engine: one block of all threads, the thread id in R7 (in R0
      with fewer than 8 registers), every thread active at pc 0. */
  lemma InitSeeds(nt: int, nr: int, ms: int)
    requires nt >= 0 && nr >= 0 && ms >= 0 && (nt == 0 || nr > 0)
    ensures var g := Init(nt, nr, ms);
      && g.numBlocks == 1 && g.threadsPerBlock == nt && g.sharedSize == 0 && Cycles(g) == 0
      && HistoryShaped(g)
      && forall t :: 0 <= t < nt ==>
           && g.pc[t] == 0 && g.active[t] && !g.syncWaiting[t] && !g.syncWaitingBlock[t]
           && (if nr > 7 then g.regs[t][7] == t else g.regs[t][0] == t)
           && forall j :: 0 <= j < nr && j != 7 && j != 0 ==> g.regs[t][j] == 0
  {
  }

  /** `set_grid(nb, tpb, s)`: nb*tpb threads, an nb x s zeroed shared memory,
      R5 = tid // tpb and R6 = tid % tpb where those registers exist; memory,
      history and program untouched. */
  lemma SetGridConfigures(g: Gpu, nb: int, tpb: int, s: int)
    requires WellFormed(g) && nb >= 0 && tpb > 0 && s >= 0
    ensures var r := SetGrid(g, nb, tpb, s);
      && r.numThreads == nb * tpb && r.numBlocks == nb && r.threadsPerBlock == tpb && r.sharedSize == s
      && r.numRegisters == g.numRegisters && r.memSize == g.memSize
      && r.shared == ZeroGrid(nb, s)
      && r.mem == g.mem && r.history == g.history && r.program == g.program && r.labels == g.labels
      && forall t :: 0 <= t < r.numThreads ==>
           && (g.numRegisters > 5 ==> r.regs[t][5] == t / tpb)
           && (g.numRegisters > 6 ==> r.regs[t][6] == t % tpb)
  {
  }

  /** What `set_grid` keeps of the threads. Other registers than R5 and R6
      keep their values for threads that still exist and are zero for new
      ones (R7 is not re-seeded). When the thread count changes, pc, active,
      flags and both wait masks are reset; when it does not, they are left
      alone. */
  lemma SetGridThreads(g: Gpu, nb: int, tpb: int, s: int)
    requires WellFormed(g) && nb >= 0 && tpb >= 0 && s >= 0
    ensures var r := SetGrid(g, nb, tpb, s);
      && (forall t, j :: 0 <= t < r.numThreads && 0 <= j < g.numRegisters && j != 5 && j != 6 ==>
            r.regs[t][j] == if t < g.numThreads then g.regs[t][j] else 0)
      && (nb * tpb != g.numThreads ==>
            && r.pc == Zeros(nb * tpb) && r.active == Filled(nb * tpb, true) && r.flags == Zeros(nb * tpb)
            && r.syncWaiting == Filled(nb * tpb, false) && r.syncWaitingBlock == Filled(nb * tpb, false))
      && (nb * tpb == g.numThreads ==>
            && r.pc == g.pc && r.active == g.active && r.flags == g.flags
            && r.syncWaiting == g.syncWaiting && r.syncWaitingBlock == g.syncWaitingBlock)
  {
  }

  /** Seeding R5 and R6 a second time changes nothing. */
  lemma SeededTwice(regs: seq<seq<int>>, tpb: int)
    requires |regs| == 0 || tpb > 0
    ensures Seeded(Seeded(regs, tpb), tpb) == Seeded(regs, tpb)
  {
    var once := Seeded(regs, tpb);
    var twice := Seeded(once, tpb);
    forall t | 0 <= t < |regs|
      ensures twice[t] == once[t]
    {
      assert forall j :: 0 <= j < |regs[t]| ==> twice[t][j] == once[t][j];
    }
  }

  /** Calling `set_grid` twice with the same arguments is calling it once. */
  lemma SetGridIdempotent(g: Gpu, nb: int, tpb: int, s: int)
    requires WellFormed(g) && nb >= 0 && tpb >= 0 && s >= 0
    ensures SetGrid(SetGrid(g, nb, tpb, s), nb, tpb, s) == SetGrid(g, nb, tpb, s)
  {
    var r := SetGrid(g, nb, tpb, s);
    if nb * tpb > 0 {
      PositiveFactor(nb, tpb);
    }
    var regs := if nb * tpb != g.numThreads then ResizedRows(g.regs, nb * tpb, g.numRegisters) else g.regs;
    SeededTwice(regs, tpb);
  }

  /** `set_grid` keeps the history entries shaped like the state when the
      history is empty, or when neither the thread count nor the shape of
      shared memory changes. */
  lemma SetGridShape(g: Gpu, nb: int, tpb: int, s: int)
    requires WellFormed(g) && HistoryShaped(g) && nb >= 0 && tpb >= 0 && s >= 0
    requires Cycles(g) == 0 || (nb * tpb == g.numThreads && nb == g.numBlocks && s == g.sharedSize)
    ensures HistoryShaped(SetGrid(g, nb, tpb, s))
  {
  }

  /** `load_program`: every pc 0, every thread active and not waiting, the
      history empty; registers, memory, flags and shared memory untouched. */
  lemma LoadProgramResets(g: Gpu, program: seq<Instr>, labels: Option<map<string, int>>)
    requires WellFormed(g)
    ensures var r := LoadProgram(g, program, labels);
      && Cycles(r) == 0 && HistoryShaped(r)
      && r.program == program && r.labels == (if labels.Some? then labels.value else map[])
      && r.regs == g.regs && r.mem == g.mem && r.flags == g.flags && r.shared == g.shared
      && r.numThreads == g.numThreads && r.numBlocks == g.numBlocks && r.threadsPerBlock == g.threadsPerBlock
      && forall t :: 0 <= t < g.numThreads ==>
           r.pc[t] == 0 && r.active[t] && !r.syncWaiting[t] && !r.syncWaitingBlock[t]
  {
  }

  /** `load_kernel`: `set_grid`, then argument i in register i of every
      thread for i below the register count, then `load_program`. Storing
      an argument that does not fit int32 raises OverflowError, and that is
      the only way it fails. */
  lemma LoadKernelArgs(g: Gpu, program: seq<Instr>, labels: Option<map<string, int>>,
                       nb: int, tpb: Option<int>, args: seq<int>, s: int)
    requires WellFormed(g) && nb >= 0 && s >= 0
    requires tpb.Some? ==> tpb.value >= 0
    ensures var o := LoadKernel(g, program, labels, nb, tpb, args, s);
      var t := if tpb.Some? then tpb.value else g.threadsPerBlock;
      var c := SetGrid(g, nb, t, s);
      && (o.error.Some? <==>
            args != [] && c.numThreads > 0 && exists i :: 0 <= i < |args| && i < g.numRegisters && !IsInt32(args[i]))
      && (o.error.Some? ==> o.error == Some(OverflowError))
      && (o.error.None? ==>
            && o.gpu.numThreads == c.numThreads && o.gpu.numRegisters == c.numRegisters
            && o.gpu.numThreads == nb * t && o.gpu.numBlocks == nb && o.gpu.threadsPerBlock == t
            && o.gpu.shared == ZeroGrid(nb, s) && o.gpu.mem == g.mem && o.gpu.flags == c.flags
            && Cycles(o.gpu) == 0 && o.gpu.program == program
            && o.gpu.labels == (if labels.Some? then labels.value else map[])
            && forall u :: 0 <= u < o.gpu.numThreads ==>
                 && o.gpu.pc[u] == 0 && o.gpu.active[u] && !o.gpu.syncWaiting[u] && !o.gpu.syncWaitingBlock[u]
                 && forall j :: 0 <= j < g.numRegisters ==>
                      o.gpu.regs[u][j] == if j < |args| then args[j] else c.regs[u][j])
  {
  }
}
