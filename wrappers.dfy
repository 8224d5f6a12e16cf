/** Optional values: a lookup that may find nothing, a cookie that may be absent. */
module Wrappers {
  datatype Option<+T> = None | Some(value: T)
}
