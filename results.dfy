/** Option and Result values; Result stands for a JavaScript function that returns or throws. */
module Results {

  datatype Option<T> = None | Some(value: T)

  datatype Result<T, E> = Success(value: T) | Failure(error: E)
}
