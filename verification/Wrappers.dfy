/** Optional values, used for fields that may be nil and for calls that may fail. */
module Wrappers {
  datatype Option<+T> = None | Some(value: T)
}
