/** Option and Result values shared by the model. */
module Results {

  /** A value that may be absent; `None` stands for a JavaScript `undefined` slot. */
  datatype Option<+T> = None | Some(value: T)

  /** The outcome of an operation that may throw. */
  datatype Result<+R, +E> = Success(value: R) | Failure(error: E)
}
