/** The failure-free optional value used throughout. */
module Wrappers {
  datatype Option<+T> = None | Some(value: T)
}
