/** Optional values and error-carrying results shared by the models of the
    browser viewer and of the batch generator. */
module Options {

  /** A value that may be missing: JavaScript's `undefined`/`null` or
      Python's `None`. */
  datatype Option<+T> = None | Some(value: T)

  /** The outcome of a step that may throw; `Err` carries the error's message. */
  datatype Result<+T> = Ok(value: T) | Err(message: string)

  /** Truthiness of an optional string, which JavaScript and Python agree on:
      a missing value and the empty string are both false. */
  predicate IsTruthy(s: Option<string>)
  {
    s.Some? && s.value != ""
  }
}
