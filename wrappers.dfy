/** Failure-carrying results: the source signals "nothing found" with None and
    a failed conversion with an exception; both become values here. */
module Wrappers {

  datatype Option<+T> = None | Some(value: T)

  datatype Result<+T, +E> = Ok(value: T) | Err(error: E)
}
