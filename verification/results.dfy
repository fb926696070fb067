/** Absence and failure, in place of Java's null references and exceptions. */
module Results {

  /** A value that may be absent; `None` stands for a Java `null` argument. */
  datatype Option<+T> = None | Some(value: T)

  /** The outcome of an operation that either produces a value or throws. */
  datatype Result<+R, +E> = Success(value: R) | Failure(error: E)
}
