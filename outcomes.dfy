/** Success/failure values that stand in for the source's exceptions. */
module Outcomes {

  datatype Option<+T> = None | Some(value: T)

  /** The outcome of an operation that can raise; the error carries the exception's message. */
  datatype Result<+T> = Ok(value: T) | Err(message: string)
}
