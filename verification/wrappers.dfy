/** Failure-carrying datatypes shared by the policy and the rule checker. */
module Wrappers {

  /** A value that may be absent. */
  datatype Option<T> = None | Some(value: T)

  /** Either a successful value or an error value, in place of Go's `(T, error)` pairs. */
  datatype Result<T, E> = Success(value: T) | Failure(error: E)
}
