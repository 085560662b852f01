/** A value that may be absent: nil pointers, missing map entries, error returns. */
module Wrappers {
  datatype Option<+T> = None | Some(value: T)
}
