/** Optional values and error results shared by the modules of this model. */
module Wrappers {

  /** Python's `None` or a value. */
  datatype Option<+T> = None | Some(value: T)

  /** A value, or the exception that aborts the run. */
  datatype Result<+R, +E> = Ok(value: R) | Err(error: E)
}
