/** A value that may be missing, for every part of the model. */
module Wrappers {
  datatype Option<+T> = None | Some(value: T)
}
