/** Optional values, and results that carry either a value or an error. */
module Wrappers {

  /** A value that may be absent: the PHP `null` of a nullable field. */
  datatype Option<+T> = None | Some(value: T)

  /** The outcome of a computation that returns a value or raises an exception. */
  datatype Result<+R, +E> = Success(value: R) | Failure(error: E)

  /** The outcome of a computation that returns nothing or raises an exception. */
  datatype Outcome<+E> = Pass | Fail(error: E)
}
