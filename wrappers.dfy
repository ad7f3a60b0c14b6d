/** Failure-compatible optional values shared by the other modules. */
module Wrappers {

  /** A value that may be missing: JavaScript's `null` is `None`. */
  datatype Option<+T> = None | Some(value: T)
}
