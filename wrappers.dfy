/** Option and Result, used where the source returns null or rejects a promise. */
module Wrappers {

  /** A value that may be missing (the source's `null` / `undefined`). */
  datatype Option<+T> = None | Some(value: T)

  /** The outcome of an asynchronous call: resolved with a value or rejected with a reason. */
  datatype Result<+T, +E> = Success(value: T) | Failure(error: E)
}
