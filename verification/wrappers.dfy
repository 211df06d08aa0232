/** Optional values and success/failure results shared by the model. */
module Wrappers {

  /** A value that may be absent; `None` stands for Python's `None`. */
  datatype Option<+T> = None | Some(value: T)

  /** The outcome of a validator: the accepted value, or the reason it was refused. */
  datatype Result<+R, +E> = Success(value: R) | Failure(error: E) {

    /** Lets `:-` stop at the first refusal. */
    predicate IsFailure() {
      Failure?
    }

    /** Carries a refusal over to a result of another value type. */
    function PropagateFailure<U>(): Result<U, E>
      requires Failure?
    {
      Failure(error)
    }

    /** The accepted value. */
    function Extract(): R
      requires Success?
    {
      value
    }
  }
}
