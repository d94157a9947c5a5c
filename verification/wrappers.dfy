/** Failure-carrying datatypes shared by every module of the model. */
module Wrappers {

  /** A value that may be absent (Python's `None`). */
  datatype Option<+T> = None | Some(value: T)

  /** The outcome of an operation that either yields a value or raises. */
  datatype Result<+T, +E> = Success(value: T) | Failure(error: E) {

    predicate IsFailure() {
      Failure?
    }

    function PropagateFailure<U>(): Result<U, E>
      requires Failure?
    {
      Failure(error)
    }

    function Extract(): T
      requires Success?
    {
      value
    }
  }

  /** The Python exceptions the modelled scripts can raise on bad data. */
  datatype PyError =
    | KeyError(key: string)            // a dict lookup of an absent key
    | ValueError(reason: string)       // a failed unpacking or a failed int()
    | IndexError                       // indexing an empty string
    | UnboundLocalError(variable: string)
}
