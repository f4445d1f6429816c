/** The pieces of Python and NumPy behaviour that the simulator relies on:
    the exceptions it can raise, int32 array cells, and Python's rules for
    indexing and slicing a sequence. */
module Py {

  datatype Option<+T> = None | Some(value: T)

  /** The Python exceptions raised by the modelled code. */
  datatype Exception = TypeError | IndexError | ValueError | OverflowError

  /** The value of a Python call, or the exception it raised. */
  datatype Result<+T> = Ok(value: T) | Err(error: Exception) {
    predicate IsFailure() {
      Err?
    }

    function PropagateFailure<U>(): Result<U>
      requires Err?
    {
      Err(error)
    }

    function Extract(): T
      requires Ok?
    {
      value
    }
  }

  const INT32_MIN: int := -0x8000_0000
  const INT32_MAX: int := 0x7fff_ffff

  /** The values a NumPy int32 cell can hold. Storing any other integer makes
      NumPy 2 raise OverflowError. */
  predicate IsInt32(x: int) {
    INT32_MIN <= x <= INT32_MAX
  }

  /** Python item indexing of a sequence of length n: a negative index counts
      from the end; anything outside [-n, n) raises IndexError (None here). */
  function PyIndex(i: int, n: nat): (r: Option<nat>)
    ensures r.Some? <==> -(n as int) <= i < n
    ensures r.Some? ==> r.value < n
    ensures r.Some? && 0 <= i ==> r.value == i
    ensures r.Some? && i < 0 ==> r.value == i + n
  {
    if 0 <= i < n then Some(i) else if -(n as int) <= i < 0 then Some(i + n) else None
  }

  /** One bound of a Python slice s[start:end] of a length-n sequence, after
      negative bounds count from the end and the result is clamped to [0, n]. */
  function SliceBound(i: int, n: nat): (r: nat)
    ensures r <= n
    ensures 0 <= i <= n ==> r == i
  {
    if i < 0 then (if i + n < 0 then 0 else i + n) else if i > n then n else i
  }

  /** Python's s[start:end]: never raises, and is empty when the normalised
      bounds cross. */
  function PySlice<T>(s: seq<T>, start: int, end: int): (r: seq<T>)
    ensures |r| <= |s|
    ensures 0 <= start <= end <= |s| ==> r == s[start..end]
    ensures forall k :: 0 <= k < |r| ==> SliceBound(start, |s|) + k < |s| && r[k] == s[SliceBound(start, |s|) + k]
  {
    var lo, hi := SliceBound(start, |s|), SliceBound(end, |s|);
    if lo <= hi then s[lo..hi] else []
  }
}
