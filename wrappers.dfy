/** Option and Result, the two wrappers the model uses for absent values and for thrown errors. */
module Wrappers {

  /** An optional value: `None` stands for an absent, null or unusable argument. */
  datatype Option<+T> = None | Some(value: T)

  /** The outcome of an operation that either returns a value or throws an error. */
  datatype Result<+R, +E> = Success(value: R) | Failure(error: E)
}
