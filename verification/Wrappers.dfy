/** The wrapper types and the cut-off at zero that the modules below share. */
module Wrappers {
  /** A value that may be absent: a nil pointer, a missing row, a zero time. */
  datatype Option<+T> = None | Some(value: T)

  /** The outcome of an operation that reports an error. */
  datatype Result<+T, +E> = Success(value: T) | Failure(error: E)

  /** Cut off at zero. */
  function Positive(n: int): (r: int)
    ensures r >= 0 && r >= n && (r == n || r == 0)
  {
    if n < 0 then 0 else n
  }
}
