/** Types that several modules share. */
module Wrappers {
  datatype Option<+T> = None | Some(value: T)

  type byte = n: int | 0 <= n < 256
}
