/** Failure-carrying values shared by the modules of this model. */
module Wrappers {

  /** An optional value: the model's stand-in for a pointer that may be NULL. */
  datatype Option<+T> = None | Some(value: T)

  /** The outcome of an operation that can fail with an error of type E. */
  datatype Result<+T, +E> = Ok(value: T) | Err(error: E)
}
