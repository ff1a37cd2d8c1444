/** Optional values and error-carrying results, used where the source has
    `undefined`/`null` fields and thrown errors. */
module Wrappers {

  /** A value that may be missing (`undefined` or `null` in the source). */
  datatype Option<+T> = None | Some(value: T)

  /** The outcome of a call that either returns a value or throws an error
      with a message. */
  datatype Result<+T> = Ok(value: T) | Err(message: string)
}
