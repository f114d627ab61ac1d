/** A value that may be missing, in place of a null. */
module Wrappers {

  datatype Option<+T> = None | Some(value: T)
}
