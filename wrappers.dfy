/** The optional value used for the nullable results of the original program. */
module Wrappers {

  datatype Option<+T> = None | Some(value: T)
}
