/** The optional value used for names that a declaration may lack. */
module Wrappers {

  datatype Option<+T> = None | Some(value: T)
}
