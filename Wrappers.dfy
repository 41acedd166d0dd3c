/** Optional values, used wherever the source has a "found / not found" outcome. */
module Wrappers {

  datatype Option<+T> = None | Some(value: T)
}
