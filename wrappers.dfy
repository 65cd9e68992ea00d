/** Option and Result datatypes used for null references and thrown exceptions. */
module Wrappers {

  /** A value that may be absent: `None` stands for a .NET null reference. */
  datatype Option<+T> = None | Some(value: T)

  /** The outcome of an operation that can throw: `Failure` carries the exception message. */
  datatype Result<+R> = Success(value: R) | Failure(error: string)

  /** The message of the .NET `NullReferenceException`, thrown on a member access through null. */
  const NullReference := "Object reference not set to an instance of an object."
}
