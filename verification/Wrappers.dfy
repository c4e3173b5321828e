/** A value that may be missing: what the source leaves to a null pointer. */
module Wrappers {
  datatype Option<+T> = None | Some(value: T)
}
