/** An optional value, for lookups and early returns that may yield
    nothing. */
module Wrappers {
  datatype Option<+T> = None | Some(value: T)
}
