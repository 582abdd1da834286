/** Failure-carrying values shared by the model: `Option` for values that may
    be absent (a falsy lookup result) and `Result` for operations that throw. */
module Wrappers {

  datatype Option<+T> = None | Some(value: T)

  datatype Result<+R, +E> = Success(value: R) | Failure(error: E)
}
