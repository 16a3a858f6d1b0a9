/** The optional value used for the model set, which may be missing, and for a regex match, which may fail. */
module Wrappers {
  datatype Option<+T> = None | Some(value: T)
}
