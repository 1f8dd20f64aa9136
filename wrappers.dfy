/** Option and Result: absent values and error returns of the modelled code. */
module Wrappers {

  /** A value that may be missing (JavaScript's `null` / `undefined`). */
  datatype Option<+T> = None | Some(value: T)

  /** The outcome of an operation that can throw: its value, or the thrown message. */
  datatype Result<+R, +E> = Success(value: R) | Failure(error: E)
}
