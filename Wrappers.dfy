/** Failure-carrying wrappers shared by the pipe modules. */
module Wrappers {

  /** A value that may be absent: the model of a C# reference that may be null. */
  datatype Option<+T> = None | Some(value: T)

  /** The outcome of an operation that either completes or throws. */
  datatype Outcome<+E> = Pass | Fail(error: E)
}
