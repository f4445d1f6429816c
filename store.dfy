/** The state of a TinyGPU as a value: the program representation, the
    per-thread arrays, global and shared memory and the five history lists.
    The engine class keeps the same state in arrays and fields; this value
    is what its specification speaks about. */
module Store {

  /** An instruction operand as the assembler produces it: a register
      reference `("R", idx)`, an integer, or a label name left unresolved. */
  datatype Operand = Reg(index: int) | Imm(value: int) | Label(name: string)

  /** One program entry `(opcode, args)`. The opcode stays a string: an opcode
      that has no handler executes as a no-op. */
  datatype Instr = Instr(op: string, args: seq<Operand>)

  /** The five history lists `history_registers`, `history_memory`,
      `history_pc`, `history_flags` and `history_shared`. The engine appends
      to them, empties them and trims them only all together, so they are
      kept as one record. */
  datatype History = History(
    registers: seq<seq<seq<int>>>,
    memory: seq<seq<int>>,
    pc: seq<seq<int>>,
    flags: seq<seq<int>>,
    shared: seq<seq<seq<int>>>)
  {
    /** One entry per recorded cycle in each list. */
    predicate Aligned() {
      |memory| == |registers| && |pc| == |registers| && |flags| == |registers| && |shared| == |registers|
    }

    /** `_record_history`: one copy of each array at the end of its list. */
    function Appended(regs: seq<seq<int>>, mem: seq<int>, p: seq<int>, f: seq<int>, sh: seq<seq<int>>): (h: History)
      ensures |h.registers| == |registers| + 1 && |h.memory| == |memory| + 1 && |h.pc| == |pc| + 1
      ensures |h.flags| == |flags| + 1 && |h.shared| == |shared| + 1
      ensures Aligned() ==> h.Aligned()
      ensures h.registers[|registers|] == regs && h.memory[|memory|] == mem && h.pc[|pc|] == p
      ensures h.flags[|flags|] == f && h.shared[|shared|] == sh
      ensures h.registers[..|registers|] == registers && h.memory[..|memory|] == memory
      ensures h.pc[..|pc|] == pc && h.flags[..|flags|] == flags && h.shared[..|shared|] == shared
    {
      History(registers + [regs], memory + [mem], pc + [p], flags + [f], shared + [sh])
    }

    /** The first n entries of each list (`lst[:n]`). */
    function Prefix(n: nat): (h: History)
      requires Aligned() && n <= |registers|
      ensures h.Aligned() && |h.registers| == n
    {
      History(registers[..n], memory[..n], pc[..n], flags[..n], shared[..n])
    }
  }

  const NoHistory: History := History([], [], [], [], [])

  /** Every attribute of a `TinyGPU` object that the engine reads or writes. */
  datatype Gpu = Gpu(
    numThreads: int,
    numRegisters: int,
    memSize: int,
    numBlocks: int,
    threadsPerBlock: int,
    sharedSize: int,
    regs: seq<seq<int>>,            // registers, one row per thread
    mem: seq<int>,                  // global memory
    pc: seq<int>,
    active: seq<bool>,
    flags: seq<int>,
    syncWaiting: seq<bool>,         // waiting at the grid-wide barrier
    syncWaitingBlock: seq<bool>,    // waiting at the barrier of its block
    shared: seq<seq<int>>,          // one row of shared memory per block
    history: History,
    program: seq<Instr>,
    labels: map<string, int>)

  /** m has `rows` rows of `cols` cells each. */
  predicate IsGrid<T>(m: seq<seq<T>>, rows: int, cols: int) {
    |m| == rows && forall i :: 0 <= i < |m| ==> |m[i]| == cols
  }

  /** The shape invariant every operation keeps: array sizes agree with the
      configuration, the grid covers exactly the threads, and the five
      history lists have one entry per recorded cycle each. */
  predicate WellFormed(g: Gpu) {
    && g.numThreads >= 0 && g.numRegisters >= 0 && g.memSize >= 0
    && g.numBlocks >= 0 && g.threadsPerBlock >= 0 && g.sharedSize >= 0
    && g.numThreads == g.numBlocks * g.threadsPerBlock
    && IsGrid(g.regs, g.numThreads, g.numRegisters)
    && |g.mem| == g.memSize
    && |g.pc| == g.numThreads
    && |g.active| == g.numThreads
    && |g.flags| == g.numThreads
    && |g.syncWaiting| == g.numThreads
    && |g.syncWaitingBlock| == g.numThreads
    && IsGrid(g.shared, g.numBlocks, g.sharedSize)
    && g.history.Aligned()
  }

  /** Every history entry has the shape of the current state, so that it can
      be copied back in place. A resizing `set_grid` can break this. */
  predicate HistoryShaped(g: Gpu)
    requires WellFormed(g)
  {
    forall k :: 0 <= k < |g.history.registers| ==>
      && IsGrid(g.history.registers[k], g.numThreads, g.numRegisters)
      && |g.history.memory[k]| == g.memSize
      && |g.history.pc[k]| == g.numThreads
      && |g.history.flags[k]| == g.numThreads
      && IsGrid(g.history.shared[k], g.numBlocks, g.sharedSize)
  }

  /** The number of recorded cycles. */
  function Cycles(g: Gpu): nat {
    |g.history.pc|
  }

  function Zeros(n: nat): (r: seq<int>)
    ensures |r| == n && forall i :: 0 <= i < n ==> r[i] == 0
  {
    seq(n, _ => 0)
  }

  function Filled(n: nat, b: bool): (r: seq<bool>)
    ensures |r| == n && forall i :: 0 <= i < n ==> r[i] == b
  {
    seq(n, _ => b)
  }

  function ZeroGrid(rows: nat, cols: nat): (r: seq<seq<int>>)
    ensures IsGrid(r, rows, cols)
    ensures forall i, j :: 0 <= i < rows && 0 <= j < cols ==> r[i][j] == 0
  {
    seq(rows, _ => Zeros(cols))
  }

  /** The block a thread belongs to, `tid // threads_per_block`. */
  function BlockOf(g: Gpu, tid: int): int
    requires WellFormed(g) && 0 <= tid < g.numThreads
  {
    PositiveFactor(g.numBlocks, g.threadsPerBlock);
    tid / g.threadsPerBlock
  }

  lemma PositiveFactor(a: int, b: int)
    requires a >= 0 && b >= 0 && a * b > 0
    ensures a > 0 && b > 0
  {
  }

  /** A thread in the range [b*tpb, b*tpb + tpb) of block b has block id b. */
  lemma BlockOfRange(b: int, tpb: int, t: int)
    requires tpb > 0 && b * tpb <= t < b * tpb + tpb
    ensures t / tpb == b
  {
    var q, r := t / tpb, t % tpb;
    assert t == q * tpb + r && 0 <= r < tpb;
    MulMonotoneCases(q, b, tpb);
  }

  /** For k > 0, multiples of k are at least k apart. */
  lemma MulMonotoneCases(x: int, y: int, k: int)
    requires k > 0
    ensures x < y ==> x * k + k <= y * k
    ensures x > y ==> y * k + k <= x * k
  {
    if x < y {
      MulMonotone(x + 1, y, k);
      assert (x + 1) * k == x * k + k;
    } else if x > y {
      MulMonotone(y + 1, x, k);
      assert (y + 1) * k == y * k + k;
    }
  }

  lemma MulMonotone(x: int, y: int, k: int)
    requires x <= y && k >= 0
    ensures x * k <= y * k
  {
    assert y * k - x * k == (y - x) * k;
  }

  /** The thread range of block b < nb lies inside the grid of nb*tpb threads. */
  lemma BlockInGrid(b: int, nb: int, tpb: int)
    requires 0 <= b < nb && tpb >= 0
    ensures 0 <= b * tpb && b * tpb + tpb <= nb * tpb
  {
    MulMonotone(0, b, tpb);
    MulMonotone(b + 1, nb, tpb);
  }

  /** Two states that differ at most in the registers of thread tid and in
      global memory: what one instruction handler may change. */
  predicate OnlyRowAndMemory(g: Gpu, h: Gpu, tid: int) {
    && h.(regs := g.regs, mem := g.mem) == g
    && |h.regs| == |g.regs|
    && |h.mem| == |g.mem|
    && (forall t :: 0 <= t < |g.regs| && t != tid ==> h.regs[t] == g.regs[t])
    && (0 <= tid < |g.regs| ==> |h.regs[tid]| == |g.regs[tid]|)
  }
}
