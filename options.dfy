/** Failure-carrying values shared by the descriptor modules. */
module Options {

  /** A value that may be missing: a Python `None`, or a floating-point NaN result. */
  datatype Option<T> = None | Some(value: T)

  /** The outcome of a constructor that can raise. */
  datatype Result<T, E> = Success(value: T) | Failure(error: E)
}
