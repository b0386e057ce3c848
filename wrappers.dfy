/** Optional values, standing in for a Kotlin call that either returns a value or throws. */
module Wrappers {
  datatype Option<+T> = None | Some(value: T)
}
