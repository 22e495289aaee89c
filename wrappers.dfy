/** The optional value used wherever the source has a null reference or an exception. */
module Wrappers {

  datatype Option<+T> = None | Some(value: T)
}
