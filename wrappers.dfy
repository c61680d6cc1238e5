/** Optional values and fallible results shared by every module. */
module Wrappers {

  /** A value that may be absent: Python's `None` or a missing dictionary key. */
  datatype Option<T> = None | Some(value: T)

  /** The outcome of a store call: a value, or the exception the store raised. */
  datatype Result<T> = Success(value: T) | Failure(error: string)
}
