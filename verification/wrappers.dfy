/** Small failure-carrying datatypes shared by every module of the model. */
module Wrappers {

  /** A value that may be absent; stands for a nullable reference of the client. */
  datatype Option<+T> = None | Some(value: T)

  /** The outcome of an operation that either returns a value or throws. */
  datatype Result<+T> = Ok(value: T) | Err(message: string) {
    predicate IsFailure() { Err? }
  }
}
