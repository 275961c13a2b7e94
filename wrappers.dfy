/** The optional value used for C's possibly-NULL string pointers. */
module Wrappers {

  datatype Option<+T> = None | Some(value: T)
}
