/** Failure-carrying results: the source's `Option` and `Result`. */
module Wrappers {

  datatype Option<+T> = None | Some(value: T)

  datatype Result<+T> = Ok(value: T) | Err

  /** The outcome of a request that yields nothing but may fail. */
  datatype Outcome = Done | Failed
}
