/** Failure-carrying datatypes shared by the rest of the model. */
module Wrappers {

  /** A value that may be absent: a document a query did not find, a field never set. */
  datatype Option<+T> = None | Some(value: T)

  /** The outcome of a handler that can fail as a whole. */
  datatype Result<+T, +E> = Ok(value: T) | Err(error: E)
}
