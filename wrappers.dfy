/** The optional value used for `null`-able fields and lookups. */
module Wrappers {
  datatype Option<+T> = None | Some(value: T)
}
