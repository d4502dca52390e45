/** Optional values, and the outcome of a call that may end in an uncaught
    exception. */
module Wrappers {
  /** A Python `None` or a present value. */
  datatype Option<T> = None | Some(value: T)

  /** A call either returns a value or raises an exception nobody catches. */
  datatype Outcome<T> = Returned(value: T) | Raised
}
