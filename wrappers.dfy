/** Small failure-carrying datatypes shared by the modules of this model. */
module Wrappers {

  /** A value that may be absent (JavaScript's `null`/`undefined` results). */
  datatype Option<+T> = None | Some(value: T)

  /** Either a value or the error a call rejects with. */
  datatype Result<+T, +E> = Ok(value: T) | Err(error: E)

  /** A call that yields no value: it either completes or rejects with an error. */
  datatype Outcome<+E> = Pass | Fail(error: E)
}
