/** Failure-carrying values for Go's `error` returns. A Go error is modelled by its
    message: `None` stands for a nil error, `Some(m)` for an error whose text is `m`. */
module Wrappers {

  datatype Option<+T> = None | Some(value: T)

  /** A Go `(value, error)` pair where exactly one side is meaningful. */
  datatype Result<+T> = Ok(value: T) | Err(cause: string)
}
