/** Optional values and results with an error message, used wherever the
    Python code returns None or raises an exception. */
module Wrappers {

  datatype Option<+T> = None | Some(value: T)

  /** A computation that either produced a value or raised an exception whose
      text (Python's str(e)) is kept as the error. */
  datatype Result<+T> = Success(value: T) | Failure(error: string)
}
