/** Optional values, for operations that may not apply. */
module Wrappers {

  datatype Option<+T> = None | Some(value: T)
}
