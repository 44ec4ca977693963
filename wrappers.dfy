/** The optional value used for lookups, extensions, and operations that may panic. */
module Wrappers {
  datatype Option<+T> = None | Some(value: T)
}
