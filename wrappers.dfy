/** Option, used for values that may be absent (a NaN parse, no projection yet). */
module Wrappers {
  datatype Option<+T> = None | Some(value: T)
}
