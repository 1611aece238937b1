/** The two failure-carrying datatypes shared by the modules of the model. */
module Wrappers {

  /** A value that may be absent: Go's nil pointers, comma-ok results and panicking calls. */
  datatype Option<+T> = None | Some(value: T)

  /** An operation that either yields a value or reports an error. */
  datatype Result<+T, +E> = Success(value: T) | Failure(error: E)
}
