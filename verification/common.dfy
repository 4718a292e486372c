/** Failure-carrying values that stand in for the exceptions the solvers raise. */
module Common {

  datatype Option<+T> = None | Some(value: T)

  datatype Result<+R, +E> = Ok(value: R) | Err(error: E)
}
