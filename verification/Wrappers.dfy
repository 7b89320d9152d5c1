/** The optional value used throughout the model in place of std::optional. */
module Wrappers {
  datatype Option<+T> = None | Some(value: T)
}
