/** A value that may be absent: JavaScript's `null` / `undefined`, or a number
    that parsed to `NaN`. */
module Wrappers {
  datatype Option<+T> = None | Some(value: T)
}
