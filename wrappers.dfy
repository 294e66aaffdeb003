/** The optional value used by the parsers and the path operations of the model. */
module Wrappers {
  datatype Option<+T> = None | Some(value: T)
}
