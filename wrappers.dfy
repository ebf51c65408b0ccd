/** The optional-value and result wrappers shared by the other modules. */
module Wrappers {

  datatype Option<+T> = None | Some(value: T)

  /** The outcome of a step that can throw: a value, or the message of the thrown error. */
  datatype Result<+T> = Ok(value: T) | Err(message: string)
}
