/** The two result shapes shared by the inventory and orders models. */
module Wrappers {
  datatype Option<T> = None | Some(value: T)

  /** A service call either answers with a value or fails with an error. */
  datatype Result<T, E> = Success(value: T) | Failure(error: E)
}
