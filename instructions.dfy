/** The instruction set: operand resolution, the five handlers and the
    dispatch table, as functions from a state to the state after the
    handler's one write (or the exception it raises before writing). */
module Instructions {
  import opened Py
  import opened PyStr
  import opened Store

  /** What `_resolve` returns: a Python int, or a label string passed on as is. */
  datatype Value = Int(i: int) | Str(s: string)

  /** `_resolve(gpu, tid, operand)`: a register operand reads the executing
      thread's register (Python indexing, so a negative index counts from
      the last register), an integer is itself, a label is returned as is. */
  function Resolve(g: Gpu, tid: int, o: Operand): (r: Result<Value>)
    requires WellFormed(g) && 0 <= tid < g.numThreads
    ensures o.Reg? && 0 <= o.index < g.numRegisters ==> r == Ok(Int(g.regs[tid][o.index]))
    ensures o.Reg? ==> (r.Err? <==> !(-g.numRegisters <= o.index < g.numRegisters))
    ensures r.Err? ==> r.error == IndexError
    ensures o.Imm? ==> r == Ok(Int(o.value))
    ensures o.Label? ==> r == Ok(Str(o.name))
  {
    match o
    case Reg(idx) =>
      (match PyIndex(idx, g.numRegisters)
       case Some(j) => Ok(Int(g.regs[tid][j]))
       case None => Err(IndexError))
    case Imm(v) => Ok(Int(v))
    case Label(name) => Ok(Str(name))
  }

  /** Python `int(v)`: a string is parsed, and ValueError if it is no number. */
  function ToInt(v: Value): (r: Result<int>)
    ensures v.Int? ==> r == Ok(v.i)
    ensures v.Str? ==> (r.Ok? <==> PyInt(v.s).Some?)
    ensures r.Err? ==> r.error == ValueError
  {
    match v
    case Int(i) => Ok(i)
    case Str(s) =>
      (match PyInt(s)
       case Some(n) => Ok(n)
       case None => Err(ValueError))
  }

  /** Python `v1 + v2` on resolved operands. */
  function Plus(v1: Value, v2: Value): Result<Value> {
    match (v1, v2)
    case (Int(a), Int(b)) => Ok(Int(a + b))
    case (Str(a), Str(b)) => Ok(Str(a + b))
    case _ => Err(TypeError)
  }

  function Repeat(s: string, n: int): string
    decreases n
  {
    if n <= 0 then [] else s + Repeat(s, n - 1)
  }

  /** Python `v1 * v2` on resolved operands: a string times an int repeats it. */
  function Times(v1: Value, v2: Value): Result<Value> {
    match (v1, v2)
    case (Int(a), Int(b)) => Ok(Int(a * b))
    case (Str(a), Int(b)) => Ok(Str(Repeat(a, b)))
    case (Int(a), Str(b)) => Ok(Str(Repeat(b, a)))
    case _ => Err(TypeError)
  }

  /** h is g with register j of thread tid set to x, and nothing else changed. */
  predicate RegisterWritten(g: Gpu, h: Gpu, tid: int, j: int, x: int) {
    && 0 <= tid < |g.regs| && 0 <= j < |g.regs[tid]|
    && |h.regs| == |g.regs| && |h.regs[tid]| == |g.regs[tid]|
    && h.regs[tid][j] == x
    && (forall k :: 0 <= k < |g.regs[tid]| && k != j ==> h.regs[tid][k] == g.regs[tid][k])
    && (forall t :: 0 <= t < |g.regs| && t != tid ==> h.regs[t] == g.regs[t])
    && h.(regs := g.regs) == g
  }

  /** `gpu.registers[tid, rd] = v`, the one NumPy store of SET, ADD, MUL and
      LD: Python indexing on the register, then conversion of v to an int32
      cell (a string goes through `int()`). */
  function StoreRegister(g: Gpu, tid: int, rd: int, v: Value): (r: Result<Gpu>)
    requires WellFormed(g) && 0 <= tid < g.numThreads
    ensures r.Ok? ==> WellFormed(r.value)
    ensures r.Ok? <==> PyIndex(rd, g.numRegisters).Some? && ToInt(v).Ok? && IsInt32(ToInt(v).value)
    ensures r.Ok? ==> RegisterWritten(g, r.value, tid, PyIndex(rd, g.numRegisters).value, ToInt(v).value)
  {
    match PyIndex(rd, g.numRegisters)
    case None => Err(IndexError)
    case Some(j) =>
      var x :- ToInt(v);
      if !IsInt32(x) then Err(OverflowError)
      else Ok(g.(regs := g.regs[tid := g.regs[tid][j := x]]))
  }

  /** `op_set`: rd <- value(src). */
  function Set(g: Gpu, tid: int, dst: Operand, src: Operand): Result<Gpu>
    requires WellFormed(g) && 0 <= tid < g.numThreads
  {
    if !dst.Reg? then Err(TypeError)
    else
      var v :- Resolve(g, tid, src);
      StoreRegister(g, tid, dst.index, v)
  }

  /** `op_add`: rd <- value(a) + value(b); both operands are read before the write. */
  function Add(g: Gpu, tid: int, dst: Operand, a: Operand, b: Operand): Result<Gpu>
    requires WellFormed(g) && 0 <= tid < g.numThreads
  {
    if !dst.Reg? then Err(TypeError)
    else
      var v1 :- Resolve(g, tid, a);
      var v2 :- Resolve(g, tid, b);
      var v :- Plus(v1, v2);
      StoreRegister(g, tid, dst.index, v)
  }

  /** `op_mul`: rd <- value(a) * value(b). */
  function Mul(g: Gpu, tid: int, dst: Operand, a: Operand, b: Operand): Result<Gpu>
    requires WellFormed(g) && 0 <= tid < g.numThreads
  {
    if !dst.Reg? then Err(TypeError)
    else
      var v1 :- Resolve(g, tid, a);
      var v2 :- Resolve(g, tid, b);
      var v :- Times(v1, v2);
      StoreRegister(g, tid, dst.index, v)
  }

  /** `op_ld`: rd <- memory[int(value(addr))]. */
  function Ld(g: Gpu, tid: int, dst: Operand, addr: Operand): Result<Gpu>
    requires WellFormed(g) && 0 <= tid < g.numThreads
  {
    if !dst.Reg? then Err(TypeError)
    else
      var av :- Resolve(g, tid, addr);
      var a :- ToInt(av);
      match PyIndex(a, g.memSize)
      case None => Err(IndexError)
      case Some(k) => StoreRegister(g, tid, dst.index, Int(g.mem[k]))
  }

  /** `op_st`: memory[int(value(addr))] <- int(value(src)). */
  function St(g: Gpu, tid: int, addr: Operand, src: Operand): Result<Gpu>
    requires WellFormed(g) && 0 <= tid < g.numThreads
  {
    var av :- Resolve(g, tid, addr);
    var a :- ToInt(av);
    var sv :- Resolve(g, tid, src);
    var x :- ToInt(sv);
    match PyIndex(a, g.memSize)
    case None => Err(IndexError)
    case Some(k) =>
      if !IsInt32(x) then Err(OverflowError)
      else Ok(g.(mem := g.mem[k := x]))
  }

  /** The handlers of the dispatch table. */
  datatype Handler = SetOp | AddOp | MulOp | LdOp | StOp

  /** `INSTRUCTIONS` */
  const Table: map<string, Handler> :=
    map["SET" := SetOp, "ADD" := AddOp, "MUL" := MulOp, "LD" := LdOp, "ST" := StOp]

  /** The number of operands a handler takes after `gpu` and `tid`. */
  function Arity(h: Handler): nat {
    match h
    case SetOp => 2
    case AddOp => 3
    case MulOp => 3
    case LdOp => 2
    case StOp => 2
  }

  /** One instruction as the engine runs it: look the opcode up in the table
      (a missing opcode does nothing) and call the handler with the
      instruction's operands (the wrong number of them is a TypeError). */
  function Execute(g: Gpu, tid: int, ins: Instr): (r: Result<Gpu>)
    requires WellFormed(g) && 0 <= tid < g.numThreads
    ensures r.Ok? ==> WellFormed(r.value) && OnlyRowAndMemory(g, r.value, tid)
    ensures ins.op !in Table ==> r == Ok(g)
  {
    if ins.op !in Table then Ok(g)
    else
      var h := Table[ins.op];
      var a := ins.args;
      if |a| != Arity(h) then Err(TypeError)
      else
        var r := match h
          case SetOp => Set(g, tid, a[0], a[1])
          case AddOp => Add(g, tid, a[0], a[1], a[2])
          case MulOp => Mul(g, tid, a[0], a[1], a[2])
          case LdOp => Ld(g, tid, a[0], a[1])
          case StOp => St(g, tid, a[0], a[1]);
        r
  }
}
