/** Failure-compatible result types used for the simulation's error paths. */
module Wrappers {

  datatype Option<+T> = None | Some(value: T)

  /** The value of a computation that may raise an error instead. */
  datatype Result<+R, +E> = Ok(value: R) | Err(error: E)

  /** The outcome of a computation that returns nothing but may raise an error. */
  datatype Outcome<+E> = Pass | Fail(error: E)
}
