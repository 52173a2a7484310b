/** Failure-carrying values shared by every module of the ledger model. */
module Results {

  /** A value that may be absent; `None` plays the role of Go's nil. */
  datatype Option<+T> = None | Some(value: T)

  /** The `(value, error)` pair of a Go call, with exactly one side present. */
  datatype Result<+T, +E> = Ok(value: T) | Err(error: E)
}
