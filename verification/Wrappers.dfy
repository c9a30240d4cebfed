// A value that may be missing: the NULL pointers of the C code.
module Wrappers {
  datatype Option<+T> = None | Some(value: T)
}
