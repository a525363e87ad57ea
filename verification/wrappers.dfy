/** The optional value used for "no match" results and for a file that may be missing. */
module Wrappers {

  datatype Option<+T> = None | Some(value: T)
}
