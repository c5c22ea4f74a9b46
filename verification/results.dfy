/** Failure-carrying values shared by every module of the model.
    JavaScript code here signals failure by throwing an `Error`; the model
    returns an `Err` carrying that error's `message` instead. */
module Results {

  /** A value that may be absent (JavaScript's `null`/`undefined`). */
  datatype Option<+T> = None | Some(value: T)

  /** A settled promise: resolved with a value, or rejected with an `Error` whose message is kept. */
  datatype Result<+T> = Ok(value: T) | Err(message: string)

  /** A settled promise whose resolved value is not used by the caller. */
  datatype Outcome = Pass | Fail(message: string)
}
