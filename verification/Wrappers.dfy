/** Results that may be missing: Go's comma-ok idiom and nil pointers. */
module Wrappers {
  datatype Option<+T> = None | Some(value: T)
}
