/** Failure-carrying values used in place of Java's null, Optional and exceptions. */
module Wrappers {

  /** An optional value (Java's Optional or a nullable reference). */
  datatype Option<+T> = None | Some(value: T)

  /** Either a value or the failure an exception would have carried. */
  datatype Result<+T, +E> = Ok(value: T) | Err(error: E)
}
