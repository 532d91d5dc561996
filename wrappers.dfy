/** Optional values, used wherever the console may have nothing to return. */
module Wrappers {
  datatype Option<+T> = None | Some(value: T)
}
