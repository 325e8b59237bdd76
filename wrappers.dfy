/** Optional values and error returns shared by the note-store modules. */
module Wrappers {

  /** A value that may be absent: JavaScript's `undefined`/`null`. */
  datatype Option<+T> = None | Some(value: T)

  /** The outcome of an operation that may throw: the value, or the error message. */
  datatype Result<+T> = Ok(value: T) | Err(message: string)
}
