/** Failure-carrying wrappers shared by the other modules. */
module Base {

  /** An optional value: the Go code's "nil or a value". */
  datatype Option<+T> = None | Some(value: T)

  /** A value or an error: the Go code's `(value, err)` pairs. */
  datatype Result<+T, +E> = Ok(value: T) | Err(error: E)
}
