/** Optional values and handler results. */
module Wrappers {

  datatype Option<+T> = None | Some(value: T)

  /** A handler's answer: a success value, or the error the client receives. */
  datatype Result<+R, +E> = Success(value: R) | Failure(error: E)
}
