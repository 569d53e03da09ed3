/** A value or nothing: how the source's error returns and absent entries are modelled. */
module Wrappers {
  datatype Option<+T> = None | Some(value: T)
}
