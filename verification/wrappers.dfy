/** Failure-carrying result types shared by every module of the model.
    A C++ exception thrown by the engine is modelled as a `Failure`/`Fail`
    value returned to the caller. */
module Wrappers {

  /** A value that may be absent (a null pointer in the engine). */
  datatype Option<+T> = None | Some(value: T)

  /** Either a computed value or the error that was thrown instead. */
  datatype Result<+R, +E> = Success(value: R) | Failure(error: E)

  /** Whether a void operation returned normally or threw. */
  datatype Outcome<+E> = Pass | Fail(error: E)

  /** `std::out_of_range`, thrown by a checked index or key lookup. */
  datatype OutOfRangeError = OutOfRange
}
