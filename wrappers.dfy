/** Failure-carrying values shared by every module of the model. */
module Wrappers {

  /** An optional value; `None` stands for Swift's `nil`. */
  datatype Option<+T> = None | Some(value: T)

  /** The outcome of a Swift function that `throws`. */
  datatype Result<+R, +E> = Success(value: R) | Failure(error: E)
}
