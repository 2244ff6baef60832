/** Option and Result, the two wrappers the rest of the model returns. */
module Wrappers {
  datatype Option<T> = None | Some(value: T)

  /** The outcome of an operation that can fail with a message, like `eyre::Result`. */
  datatype Result<T> = Ok(value: T) | Err(error: string)
}
