/** Failure-carrying result types shared by the decoders and the scheduler. */
module Wrappers {

  /** An optional value: the solver's model, or nothing when there is none. */
  datatype Option<+T> = None | Some(value: T)

  /** A value, or the error a Go function returns beside it. */
  datatype Result<+T, +E> = Success(value: T) | Failure(error: E)
}
