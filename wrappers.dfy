/** Failure-carrying results shared by every module of the model. */
module Wrappers {

  datatype Option<+T> = None | Some(value: T)

  /** The value of an operation that either completes or raises the named error. */
  datatype Result<+T, +E> = Ok(value: T) | Err(error: E)
}
