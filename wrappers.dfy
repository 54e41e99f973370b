/** Wrappers used across the model: an optional value and
    a value-or-error result (the model's stand-in for a raised exception). */
module Wrappers {

  datatype Option<+T> = None | Some(value: T)

  datatype Result<+R, +E> = Success(value: R) | Failure(error: E)
}
