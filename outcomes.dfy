/** Optional values and the Python exceptions the modelled code can raise. */
module Outcomes {

  datatype Option<T> = None | Some(value: T)

  /** The exception kinds that reach the caller in the modelled code. */
  datatype Fault =
    | IndexError      // list index out of range, or choice() from an empty list
    | ValueError      // int() of a string that is not a decimal number
    | AssertionError  // a failed `assert` statement
    | TypeError       // indexing a list with None

  datatype Result<T> = Ok(value: T) | Err(fault: Fault)

  /** Python list indexing `xs[k]` for a list of length len: negative k counts
      from the end; anything outside -len..len-1 raises IndexError. */
  function PyIndex(k: int, len: nat): (p: Option<nat>)
    ensures p.Some? <==> -(len as int) <= k < len
    ensures p.Some? ==> p.value < len && (p.value == k || p.value == k + len)
    ensures 0 <= k < len ==> p == Some(k)
  {
    if 0 <= k < len then Some(k)
    else if -(len as int) <= k < 0 then Some(k + len)
    else None
  }
}
