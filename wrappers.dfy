/** The two failure-carrying datatypes used across the model: `Option` for the
    source's `std::optional` results and `Result` for operations that throw. */
module Wrappers {

  datatype Option<+T> = None | Some(value: T)

  datatype Result<+T, +E> = Success(value: T) | Failure(error: E)
}
