/** Success/failure results, standing in for a Python call that either
    returns a value or raises an exception. */
module Results {

  datatype Result<+T, +E> = Success(value: T) | Failure(error: E)
}
