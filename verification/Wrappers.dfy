/** A value that may be absent, in place of undefined, null or a missing entry. */
module Wrappers {

  datatype Option<+T> = None | Some(value: T)
}
