/** Failure-carrying datatypes shared by the whole model. */
module Wrappers {

  /** A value that may be absent: a missing JSON member, a URL that does not parse. */
  datatype Option<+T> = None | Some(value: T)

  /** Either a value or an error. */
  datatype Result<+R, +E> = Ok(value: R) | Err(error: E)
}
