/** Optional values (SQL NULL, Python None) and results carrying the error a call raises. */
module Wrappers {

  datatype Option<+T> = None | Some(value: T)

  datatype Result<+R, +E> = Success(value: R) | Failure(error: E)

  /** The outcome of a call that returns nothing on success (a Python `-> None` function). */
  datatype Outcome<+E> = Pass | Fail(error: E)
}
