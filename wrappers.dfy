/** The optional value Ruby expresses with `nil`. */
module Wrappers {
  datatype Option<+T> = None | Some(value: T)
}
