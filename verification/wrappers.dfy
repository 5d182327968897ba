/** The optional value used for nullable fields and lookups that can miss. */
module Wrappers {
  datatype Option<+T> = None | Some(value: T)
}
