/** Option and a two-way outcome for calls that may fail, standing in for Go's
    `(value, error)` pairs where the error is opaque. */
module Wrappers {

  datatype Option<+T> = None | Some(value: T)

  /** The outcome of an operating-system or library call the model does not see:
      either its value or an error described by text. */
  datatype Fallible<+T> = Ok(value: T) | Fail(cause: string)
}
