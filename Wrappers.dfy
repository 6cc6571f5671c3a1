/** Optional values and success/failure results, standing for Python's `None`
    and for exceptions that a caller catches. */
module Wrappers {

  /** `None` is Python's `None`; `Some(v)` is a value that is present. */
  datatype Option<+T> = None | Some(value: T)

  /** `Failure(message)` stands for an exception whose `str(e)` is `message`. */
  datatype Result<+R> = Success(value: R) | Failure(message: string)
}
