/** The optional value used throughout the model: Ruby's `nil` versus a value. */
module Wrappers {

  datatype Option<+T> = None | Some(value: T)
}
