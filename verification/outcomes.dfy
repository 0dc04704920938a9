/** Failure-carrying values shared by the other modules: Go functions return a
    value together with an `error`, which the model writes as one of these. */
module Outcomes {

  /** A value that may be missing. */
  datatype Option<+T> = None | Some(value: T)

  /** Either a value or the error that prevented computing it. */
  datatype Result<+T, +E> = Ok(value: T) | Err(error: E)
}
