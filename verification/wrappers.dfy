/** The optional value used for a possibly-null child pointer. */
module Wrappers {

  datatype Option<+T> = None | Some(value: T)
}
