/** Absent or present values. */
module Wrappers {
  datatype Option<+T> = None | Some(value: T)
}
