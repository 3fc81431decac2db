/** Optional values, used for the source's `value, ok` and `value, error` returns. */
module Wrappers {
  datatype Option<+T> = None | Some(value: T)
}
