/** The optional value used for "no row" and "no pending booking". */
module Wrappers {
  datatype Option<T> = None | Some(value: T)
}
