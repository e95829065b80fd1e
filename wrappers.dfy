/** Small failure-compatible wrappers shared by every part of the model. */
module Wrappers {
  /** Python's `None` or a present value. */
  datatype Option<+T> = None | Some(value: T)

  /** A computation that either returns a value or raises (an uncaught Python exception). */
  datatype Result<+T> = Ok(value: T) | Raises(reason: string)
}
