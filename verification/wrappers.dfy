/** The optional value used for an absent configuration, section or user. */
module Wrappers {

  datatype Option<+T> = None | Some(value: T)
}
