/** Types that all models share: a value that may be missing, and a byte. */
module Wrappers {
  datatype Option<+T> = None | Some(value: T)

  type Byte = x: int | 0 <= x < 256
}
