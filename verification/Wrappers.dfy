/** A value that may be missing: a panic, an exhausted allocator, an absent table. */
module Wrappers {
  datatype Option<+T> = None | Some(value: T)
}
