/** Failure-carrying values shared by the converter and the importer. */
module Results {

  datatype Option<+T> = None | Some(value: T)

  /** The outcome of an operation that the Python code either completes or aborts with an exception. */
  datatype Result<+T, +E> = Success(value: T) | Failure(error: E)
}
