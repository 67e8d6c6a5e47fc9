/** Optional values and success-or-error results, used for JavaScript's `null` and thrown errors. */
module Wrappers {

  /** `None` plays the role of JavaScript's `null` (or of a missing match). */
  datatype Option<+T> = None | Some(value: T)

  /** `Err` carries what the source would throw. */
  datatype Result<+T, +E> = Ok(value: T) | Err(error: E)
}
