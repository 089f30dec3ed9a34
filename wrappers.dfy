/** Optional values and results, shared by the whole model. */
module Wrappers {

  /** An optional value, standing for Python's `Optional[...]` (None / a value). */
  datatype Option<+T> = None | Some(value: T)

  /** The outcome of a step that can fail; a failure carries what went wrong. */
  datatype Result<+R, +E> = Success(value: R) | Failure(error: E)
}
