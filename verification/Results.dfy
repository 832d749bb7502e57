/** The result of an operation that reports failure to its caller instead of returning a value. */
module Results {
  datatype Result<+T> = Ok(value: T) | Err(error: string)

  datatype Option<+T> = Some(value: T) | None
}
