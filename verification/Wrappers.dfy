/** A value that may be missing: what is not found, not given or not read. */
module Wrappers {

  datatype Option<+T> = None | Some(value: T)
}
