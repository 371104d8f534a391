// Option and Result values shared by every module of the model. Go's
// `(value, error)` pairs and Python's raised exceptions both become Result.
module Wrappers {
  datatype Option<T> = None | Some(value: T)

  datatype Result<T> = Ok(value: T) | Err(error: string)

  /** An operation that returns only an error (Go's `error` result). */
  datatype Outcome = Pass | Fail(error: string)
}
