/** Optional values and outcomes shared by the store and the release-notes model. */
module Wrappers {

  /** A value that may be absent: Python's `None` or an optional argument. */
  datatype Option<+T> = None | Some(value: T)

  /** The outcome of an operation that either returns a value or raises. */
  datatype Result<+R, +E> = Success(value: R) | Failure(error: E)
}
