/** Values shared by every component of the model. */
module Common {
  /** A nullable column or reference. */
  datatype Option<+T> = None | Some(value: T)

  /** 24 hours, in seconds. */
  const DAY := 86400

  /** Whether an error-returning call succeeded. */
  datatype Outcome<+T, +E> = Ok(value: T) | Err(error: E)
}
