/** Optional values and results, used where the Python code returns None or raises. */
module Wrappers {

  datatype Option<+T> = None | Some(value: T)

  /** A value, or the text of the exception that replaced it. */
  datatype Result<+R, +E> = Success(value: R) | Failure(error: E)
}
