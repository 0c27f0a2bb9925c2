/** Small value types shared by the client and the server models. */
module Common {

  /** A value that may be missing: an absent JSON field, a NaN from parseFloat. */
  datatype Option<T> = None | Some(value: T)

  /** The outcome of a step that can raise: the value, or the exception's message. */
  datatype Result<T> = Ok(value: T) | Err(message: string)

  /** One edge of the request body, `[from, to, capacity]`. */
  type EdgeTriple = (string, string, real)
}
