/** The optional value used for results of foreign calls that may fail. */
module Wrappers {

  datatype Option<+T> = None | Some(value: T)
}
