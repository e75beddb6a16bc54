/** Option and Result, used for bindings that a profile may leave undefined and for the
    one resolution error. */
module Wrappers {

  datatype Option<+T> = None | Some(value: T)

  datatype Result<+T, +E> = Success(value: T) | Failure(error: E)
}
