/** A value that may be absent: an element a selector may not find, a request that was not issued. */
module Wrappers {

  datatype Option<+T> = None | Some(value: T)
}
