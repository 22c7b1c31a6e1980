/** The optional value used where the source has a Swift optional. */
module Wrappers {
  datatype Option<+T> = None | Some(value: T)
}
