/** Option and Result, the two failure-carrying datatypes the model uses.
    `Result` is the shape of every update endpoint: either the new state
    with the reply, or the reason the call trapped. */
module Wrappers {

  datatype Option<+T> = None | Some(value: T)

  datatype Result<+R, +E> = Success(value: R) | Failure(error: E)
}
