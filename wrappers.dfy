/** The optional value used wherever the source returns `null` or looks up a missing key. */
module Wrappers {
  datatype Option<+T> = None | Some(value: T)
}
