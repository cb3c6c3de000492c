/** Failure-compatible wrappers used by the trend detector: an optional value
    and a value-or-fault result. */
module Wrappers {

  datatype Option<+T> = None | Some(value: T)

  datatype Result<+T, +E> = Ok(value: T) | Err(error: E)
}
