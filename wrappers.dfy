/** Optional values and results with an error, as used by both simulation cores. */
module Wrappers {

  /** A value that may be absent: Python's `None` versus a present value. */
  datatype Option<+T> = None | Some(value: T)

  /** The outcome of an operation that the source can abort with an exception. */
  datatype Result<+R, +E> = Success(value: R) | Failure(error: E)
}
