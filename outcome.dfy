/** Optional values and the outcome of a JavaScript call that may throw. */
module Outcome {

  /** A value that may be absent (`undefined`/`null` in the source). */
  datatype Option<+T> = None | Some(value: T)

  /** A thrown JavaScript error, identified by its message. */
  datatype Error = Error(message: string)

  /** Either the value a call returned or the error it threw. */
  datatype Result<+T> = Ok(value: T) | Throw(error: Error)
}
