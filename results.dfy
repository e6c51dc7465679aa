/** Result type shared by the ingestion and query modules. */
module Results {

  /** The value an operation returns, or the error it raises. */
  datatype Result<+R, +E> = Success(value: R) | Failure(error: E)
}
