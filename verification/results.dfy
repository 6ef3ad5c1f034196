/** The two wrapper types every handler of the backend is modelled with:
    `Option` for a query that may come back `null`, and `Result` for a
    handler that may throw. */
module Results {

  /** A value that may be absent (`null` in the backend). */
  datatype Option<+T> = None | Some(value: T)

  /** Either the handler's return value or the error it throws. */
  datatype Result<+T, +E> = Ok(value: T) | Err(error: E)
}
