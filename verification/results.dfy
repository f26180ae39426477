/** Success/failure values used in place of the exceptions the planner raises. */
module Results {

  /** An optional value: `None` where the source's conversion fails. */
  datatype Option<+T> = None | Some(value: T)

  /** Either a computed value or the error that aborted the computation. */
  datatype Result<+T, +E> = Ok(value: T) | Err(error: E)
}
