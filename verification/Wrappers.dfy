/** A value that may be missing: a NULL column, or None. */
module Wrappers {
  datatype Option<T> = None | Some(value: T)
}
