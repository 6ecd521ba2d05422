/** Optional values, for a destination that may be absent. */
module Wrappers {

  datatype Option<+T> = None | Some(value: T)
}
