/** Optional values, used where the source has None / NaN / an undefined local. */
module Wrappers {
  datatype Option<+T> = None | Some(value: T)
}
