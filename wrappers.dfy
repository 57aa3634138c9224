/** A value that may be missing: JavaScript's `null` result of a failed match or of a missing storage key. */
module Wrappers {
  datatype Option<+T> = None | Some(value: T)
}
