/** Optional values and results of remote calls. */
module Wrappers {

  /** A value that may be missing: JavaScript's null or undefined. */
  datatype Option<+T> = None | Some(value: T)

  /** The settled value of an awaited call: its value, or the message of the error it threw. */
  datatype Result<+T> = Ok(value: T) | Err(message: string)
}
