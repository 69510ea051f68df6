/** Option and Result: a Java `null` and a thrown exception, as values. */
module Wrappers {

  /** `None` stands for a Java `null` reference. */
  datatype Option<+T> = None | Some(value: T)

  /** The outcome of a builder's `build()`: the built value, or the exception it throws. */
  datatype Result<+T, +E> = Success(value: T) | Failure(error: E)
}
