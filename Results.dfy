/** Success/failure wrappers used for the Java exceptions of the model. */
module Results {

  datatype Option<+T> = None | Some(value: T)

  /** A computation that yields a value or raises an error. */
  datatype Result<+T, +E> = Ok(value: T) | Err(error: E)

  /** A check that passes or raises an error (a Java `void` method that may throw). */
  datatype Outcome<+E> = Pass | Fail(error: E)
}
