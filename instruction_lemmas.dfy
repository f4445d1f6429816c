/** What the instruction handlers promise: each is one checked write into
    the executing thread's registers or into global memory, and nothing
    else; a destination that is not a register is refused before anything
    is written; a store followed by a load from the same address reads back
    the stored value. */
module InstructionLemmas {
  import opened Py
  import opened Store
  import opened Instructions

  /** The operand resolves to an integer that fits an int32 cell. */
  predicate ResolvesTo(g: Gpu, tid: int, o: Operand, v: int)
    requires WellFormed(g) && 0 <= tid < g.numThreads
  {
    Resolve(g, tid, o) == Ok(Int(v)) && IsInt32(v)
  }

  /** SET, ADD, MUL and LD raise TypeError when the destination is not a
      register operand; ST has no destination register and does not. */
  lemma DestinationMustBeRegister(g: Gpu, tid: int, dst: Operand, a: Operand, b: Operand)
    requires WellFormed(g) && 0 <= tid < g.numThreads && !dst.Reg?
    ensures Set(g, tid, dst, a) == Err(TypeError)
    ensures Add(g, tid, dst, a, b) == Err(TypeError)
    ensures Mul(g, tid, dst, a, b) == Err(TypeError)
    ensures Ld(g, tid, dst, a) == Err(TypeError)
  {
  }

  /** SET stores the resolved source in register rd of thread tid only. */
  lemma SetWritesOne(g: Gpu, tid: int, rd: int, src: Operand, v: int)
    requires WellFormed(g) && 0 <= tid < g.numThreads && 0 <= rd < g.numRegisters
    requires ResolvesTo(g, tid, src, v)
    ensures var r := Set(g, tid, Reg(rd), src);
      r.Ok? && RegisterWritten(g, r.value, tid, rd, v)
  {
  }

  /** ADD stores the sum of both resolved operands in rd of thread tid only. */
  lemma AddWritesOne(g: Gpu, tid: int, rd: int, a: Operand, b: Operand, x: int, y: int)
    requires WellFormed(g) && 0 <= tid < g.numThreads && 0 <= rd < g.numRegisters
    requires Resolve(g, tid, a) == Ok(Int(x)) && Resolve(g, tid, b) == Ok(Int(y)) && IsInt32(x + y)
    ensures var r := Add(g, tid, Reg(rd), a, b);
      r.Ok? && RegisterWritten(g, r.value, tid, rd, x + y)
  {
  }

  /** MUL stores the product of both resolved operands in rd of thread tid only. */
  lemma MulWritesOne(g: Gpu, tid: int, rd: int, a: Operand, b: Operand, x: int, y: int)
    requires WellFormed(g) && 0 <= tid < g.numThreads && 0 <= rd < g.numRegisters
    requires Resolve(g, tid, a) == Ok(Int(x)) && Resolve(g, tid, b) == Ok(Int(y)) && IsInt32(x * y)
    ensures var r := Mul(g, tid, Reg(rd), a, b);
      r.Ok? && RegisterWritten(g, r.value, tid, rd, x * y)
  {
  }

  /** Both operands are read before the write, so the destination may be a
      source: `ADD R r, R r, k` adds k to the register's old value. */
  lemma AddInPlace(g: Gpu, tid: int, r: int, k: int)
    requires WellFormed(g) && 0 <= tid < g.numThreads && 0 <= r < g.numRegisters
    requires IsInt32(g.regs[tid][r] + k)
    ensures Add(g, tid, Reg(r), Reg(r), Imm(k)) == Ok(g.(regs := g.regs[tid := g.regs[tid][r := g.regs[tid][r] + k]]))
  {
  }

  /** A sum or product that leaves the int32 range is not stored: NumPy
      raises OverflowError and the register keeps its value. */
  lemma ArithmeticOverflow(g: Gpu, tid: int, rd: int, a: Operand, b: Operand, x: int, y: int)
    requires WellFormed(g) && 0 <= tid < g.numThreads && 0 <= rd < g.numRegisters
    requires Resolve(g, tid, a) == Ok(Int(x)) && Resolve(g, tid, b) == Ok(Int(y))
    ensures !IsInt32(x + y) ==> Add(g, tid, Reg(rd), a, b) == Err(OverflowError)
    ensures !IsInt32(x * y) ==> Mul(g, tid, Reg(rd), a, b) == Err(OverflowError)
  {
  }

  /** LD copies memory[a] into rd of thread tid; memory is not changed. */
  lemma LdCopies(g: Gpu, tid: int, rd: int, addr: Operand, a: int)
    requires WellFormed(g) && 0 <= tid < g.numThreads && 0 <= rd < g.numRegisters
    requires Resolve(g, tid, addr) == Ok(Int(a)) && 0 <= a < g.memSize && IsInt32(g.mem[a])
    ensures var r := Ld(g, tid, Reg(rd), addr);
      r.Ok? && RegisterWritten(g, r.value, tid, rd, g.mem[a]) && r.value.mem == g.mem
  {
  }

  /** ST writes the resolved value into memory[a]; no register changes. */
  lemma StWrites(g: Gpu, tid: int, addr: Operand, src: Operand, a: int, v: int)
    requires WellFormed(g) && 0 <= tid < g.numThreads
    requires Resolve(g, tid, addr) == Ok(Int(a)) && 0 <= a < g.memSize
    requires ResolvesTo(g, tid, src, v)
    ensures St(g, tid, addr, src) == Ok(g.(mem := g.mem[a := v]))
  {
  }

  /** An address outside memory that Python's indexing also rejects makes LD
      and ST raise IndexError. */
  lemma OutOfRangeAddress(g: Gpu, tid: int, rd: int, addr: Operand, src: Operand, a: int)
    requires WellFormed(g) && 0 <= tid < g.numThreads && 0 <= rd < g.numRegisters
    requires Resolve(g, tid, addr) == Ok(Int(a)) && !(-g.memSize <= a < g.memSize)
    requires Resolve(g, tid, src).Ok? && Resolve(g, tid, src).value.Int?
    ensures Ld(g, tid, Reg(rd), addr) == Err(IndexError)
    ensures St(g, tid, addr, src) == Err(IndexError)
  {
  }

  /** ST to address a and then LD from a, by any thread, reads back the
      stored value. */
  lemma StoreThenLoad(g: Gpu, tid: int, tid2: int, a: int, src: Operand, rd: int)
    requires WellFormed(g) && 0 <= tid < g.numThreads && 0 <= tid2 < g.numThreads
    requires 0 <= a < g.memSize && 0 <= rd < g.numRegisters
    requires St(g, tid, Imm(a), src).Ok?
    ensures var h := St(g, tid, Imm(a), src).value;
      && WellFormed(h)
      && var r := Ld(h, tid2, Reg(rd), Imm(a));
      && r.Ok?
      && r.value.regs[tid2][rd] == ToInt(Resolve(g, tid, src).value).value
  {
    var h := St(g, tid, Imm(a), src).value;
    assert h.mem[a] == ToInt(Resolve(g, tid, src).value).value;
    LdCopies(h, tid2, rd, Imm(a), a);
  }

  /** The dispatch table holds exactly SET, ADD, MUL, LD and ST. */
  lemma TableOpcodes()
    ensures Table.Keys == {"SET", "ADD", "MUL", "LD", "ST"}
  {
  }

  /** Every handler of the table writes only the executing thread's register
      row or global memory: pc, active, flags, wait flags, shared memory,
      history and program stay as they were. */
  lemma ExecuteWritesData(g: Gpu, tid: int, ins: Instr)
    requires WellFormed(g) && 0 <= tid < g.numThreads
    ensures var r := Execute(g, tid, ins);
      r.Ok? ==> && r.value.(regs := g.regs, mem := g.mem) == g
                && forall t :: 0 <= t < g.numThreads && t != tid ==> r.value.regs[t] == g.regs[t]
  {
  }
}
