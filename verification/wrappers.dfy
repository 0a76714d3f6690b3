/** Option and Result, the two failure shapes the model uses. */
module Wrappers {

  /** A value that may be absent; `None` stands for Go's `nil` slice or a missing key. */
  datatype Option<+T> = None | Some(value: T)

  /** The outcome of an operation that can fail with an error message. */
  datatype Result<+T> = Ok(value: T) | Err(error: string)
}
