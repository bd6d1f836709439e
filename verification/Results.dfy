/** Failure-carrying values shared by the modules of this project. */
module Results {

  datatype Option<+T> = None | Some(value: T)

  /** A value, or the error the Go code returns in its place. */
  datatype Result<+T, +E> = Ok(value: T) | Err(error: E)
}
