/** A value that may be missing: a null pointer or a call that threw. */
module Wrappers {

  datatype Option<T> = None | Some(value: T)
}
