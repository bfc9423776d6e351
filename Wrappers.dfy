/** The optional value used for outputs and parse results. */
module Wrappers {

  datatype Option<+T> = None | Some(value: T)
}
