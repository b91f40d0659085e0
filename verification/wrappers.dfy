/** Option and Result values shared by every module of the model. */
module Wrappers {
  datatype Option<T> = None | Some(value: T)

  /** The outcome of a call into an external service or a throwing operation. */
  datatype Result<T> = Ok(value: T) | Failed(message: string)
  {
    predicate IsFailure() { Failed? }
  }
}
