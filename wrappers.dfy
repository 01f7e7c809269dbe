/** Small value wrappers shared by the model. */
module Wrappers {

  /** A value that may be absent: JavaScript's `undefined` / `null` results. */
  datatype Option<T> = None | Some(value: T)

  /** The outcome of an operation that either returns a value or throws. */
  datatype Result<T> = Ok(value: T) | Err(message: string)
}
