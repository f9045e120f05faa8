/** Failure-compatible wrappers shared by the registry and the resolver:
    a value that may be absent (`null`/`undefined` in the original),
    a computation that may throw, and an action that may throw. */
module Wrappers {

  datatype Option<+T> = None | Some(value: T)

  datatype Result<+R, +E> = Success(value: R) | Failure(error: E)

  datatype Outcome<+E> = Pass | Fail(error: E)
}
