/** Failure values for the exceptions the linear-algebra and rendering code throws,
    and the Result type the model returns in place of throwing. */
module Errors {

  /** The standard exception classes the C++ code throws, with the message it attaches. */
  datatype Error =
    | InvalidArgument(msg: string)
    | OutOfRange(msg: string)
    | DomainError(msg: string)
    | RuntimeError(msg: string)

  datatype Result<+T> = Success(value: T) | Failure(error: Error) {
    predicate IsFailure() {
      Failure?
    }

    function PropagateFailure<U>(): Result<U>
      requires Failure?
    {
      Failure(error)
    }

    function Extract(): T
      requires Success?
    {
      value
    }
  }

  datatype Option<+T> = None | Some(value: T)
}
