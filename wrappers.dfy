/** The optional value returned by a pattern match that may fail. */
module Wrappers {

  datatype Option<T> = None | Some(value: T)
}
