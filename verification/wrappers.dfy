/** Nullable values and results that may carry a configuration error. */
module Wrappers {

  /** A nullable column value: `None` is SQL null. */
  datatype Option<+T> = None | Some(value: T)

  /** The outcome of a stage that can reject its configuration. */
  datatype Result<+T, +E> = Success(value: T) | Failure(error: E)
}
