/** Optional values and results with an error, shared by the other modules. */
module Results {

  /** A value that may be absent: a nullable column, a failed lookup. */
  datatype Option<+T> = None | Some(value: T)

  /** The outcome of an operation that may raise a (modelled) exception. */
  datatype Result<+T, +E> = Ok(value: T) | Err(error: E)
}
