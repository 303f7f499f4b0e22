/** Failure-carrying datatypes shared by the model. */
module Wrappers {

  /** A value that may be absent: a missing dictionary key, a Python `None`. */
  datatype Option<+T> = None | Some(value: T)

  /** The outcome of an operation that either returns a value or reports an error. */
  datatype Result<+T, +E> = Ok(value: T) | Err(error: E)

  /** The outcome of a call into code outside the model that may raise an exception. */
  datatype Attempt<+T> = Returned(value: T) | Raised
}
