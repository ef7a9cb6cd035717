/** Option and Result, used where the Java code returns null or throws. */
module Wrappers {

  /** `None` stands for a Java `null`. */
  datatype Option<+T> = None | Some(value: T)

  /** `Failure` stands for an exception the Java code throws, with its message. */
  datatype Result<+T> = Success(value: T) | Failure(error: string)
}
