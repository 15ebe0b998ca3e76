/** Option and Result: Java's nullable references and thrown exceptions become values. */
module Wrappers {

  /** A nullable reference: `None` is Java's `null` (or JavaScript's `null`/`undefined`). */
  datatype Option<+T> = None | Some(value: T)

  /** The outcome of a call that either returns a value or throws. */
  datatype Result<+T, +E> = Success(value: T) | Failure(error: E)
}
