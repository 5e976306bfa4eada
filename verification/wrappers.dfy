/** Optional values and success-or-error results shared by the leave-management model. */
module Wrappers {

  /** A value that may be absent, as a JavaScript property that may be `undefined`. */
  datatype Option<+T> = None | Some(value: T)

  /** The outcome of an operation that either produces a value or reports an error. */
  datatype Result<+R, +E> = Success(value: R) | Failure(error: E)
}
