/** Option and Result: the two failure-carrying shapes the model uses in place
    of Go's `(value, ok)` and `(value, error)` result pairs. */
module Wrappers {

  datatype Option<+T> = None | Some(value: T)

  datatype Result<+T, +E> = Ok(value: T) | Err(error: E)
}
