/** Small failure-carrying datatypes shared by the other modules. */
module Wrappers {

  /** A value that may be absent (PHP's null). */
  datatype Option<+T> = None | Some(value: T)

  /** The result of an operation that either returns normally or raises an error. */
  datatype Outcome<+E> = Pass | Fail(error: E)
}
