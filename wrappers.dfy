/** Failure-carrying values shared by the post store and the template cache. */
module Wrappers {

  datatype Option<+T> = None | Some(value: T)

  /** A value or the error that stopped it being produced (Go's `(T, error)` pair). */
  datatype Result<+T, +E> = Ok(value: T) | Err(error: E)
}
