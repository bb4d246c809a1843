/** Option and Result values for the operations that fail by raising. */
module Results {
  datatype Option<T> = None | Some(value: T)

  datatype Result<T, E> = Success(value: T) | Failure(error: E)
}
