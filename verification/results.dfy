/** The outcome of an operation that may raise: either a value or the
    exception that escaped from it. */
module Results {

  datatype Result<+T, +E> = Success(value: T) | Failure(error: E)

}
