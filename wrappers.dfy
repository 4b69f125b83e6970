/** Failure-compatible wrappers used throughout the model.
    - Option<T> stands for a Java reference that may be null (None is null).
    - Result<T, E> is a value or the exception a Java call would throw.
    - Outcome<E> is the result of a Java `void` method: it returns normally or throws. */
module Wrappers {

  datatype Option<+T> = None | Some(value: T)

  datatype Result<+T, +E> = Success(value: T) | Failure(error: E)

  datatype Outcome<+E> = Pass | Fail(error: E)
}
