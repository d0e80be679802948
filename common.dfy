/** Failure-carrying result types shared by every module of the model. */
module Common {

  datatype Option<+T> = None | Some(value: T)

  /** A computation that yields a value or fails with an error (a raised exception). */
  datatype Result<+T, +E> = Ok(value: T) | Err(error: E)

  /** A computation that yields nothing on success or fails with an error. */
  datatype Outcome<+E> = Pass | Fail(error: E)

  function Min(a: int, b: int): int
  {
    if a <= b then a else b
  }
}
