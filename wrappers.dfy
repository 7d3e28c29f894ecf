/** The optional value a store lookup returns. */
module Wrappers {
  datatype Option<+T> = None | Some(value: T)
}
