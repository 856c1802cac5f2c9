/** Option and Result: the failure-carrying values that stand in for Java's
    null and for the exceptions the program throws. */
module Wrappers {

  datatype Option<+T> = None | Some(value: T)

  datatype Result<+T, +E> = Success(value: T) | Failure(error: E)
}
