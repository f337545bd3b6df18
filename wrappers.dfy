/** The optional value used where the scanner reads a field that may be missing. */
module Wrappers {

  datatype Option<+T> = None | Some(value: T)
}
