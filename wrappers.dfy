/** An optional value: the model's stand-in for a field that may be absent
    (`originalPrice?: number`) or a function that may return `null`. */
module Wrappers {
  datatype Option<+T> = None | Some(value: T)
}
