/** Stock Option and Result types: Java's `null` / `Optional` and the exceptions of the services. */
module Wrappers {

  datatype Option<+T> = None | Some(value: T)

  datatype Result<+T, +E> = Success(value: T) | Failure(error: E)
}
