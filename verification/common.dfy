/** Failure-carrying wrappers shared by the whole model. */
module Common {

  /** A value that may be absent (a JavaScript `null` or `undefined`). */
  datatype Option<+T> = None | Some(value: T)

  /** The outcome of an operation that either produces a value or fails with an error. */
  datatype Result<+T, +E> = Ok(value: T) | Err(error: E)

  /** A JavaScript `Error`: its `name` and its `message`. */
  datatype JsError = JsError(name: string, message: string)

  /** An `Error` raised by `new Error(message)`. */
  function PlainError(message: string): JsError
  {
    JsError("Error", message)
  }
}
