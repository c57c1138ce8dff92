/** Option and Result: a value, or the reason there is none. */
module Wrappers {

  datatype Option<+T> = None | Some(value: T)

  /** A computation that either yields a value or fails with an error; a Java method
      that returns a value or throws is modelled as one of these. */
  datatype Result<+T, +E> = Success(value: T) | Failure(error: E)
}
