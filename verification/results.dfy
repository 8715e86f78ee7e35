/** Failure-carrying values shared by every module of the model.
    A Go function that returns `(T, error)` is modelled as a `Result<T, E>`;
    a value that may be absent is an `Option<T>`. */
module Results {

  datatype Option<+T> = None | Some(value: T)

  datatype Result<+T, +E> = Success(value: T) | Failure(error: E)
}
