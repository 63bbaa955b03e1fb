/** An optional value: None where the source has null, undefined or an absent key. */
module Wrappers {
  datatype Option<+T> = None | Some(value: T)
}
