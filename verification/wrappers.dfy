/** Failure-carrying datatypes shared by the model: an absent value, and a
    value or an error (Go's `(T, error)` result pairs). */
module Wrappers {

  datatype Option<+T> = None | Some(value: T)

  datatype Result<+T, +E> = Success(value: T) | Failure(error: E)
}
