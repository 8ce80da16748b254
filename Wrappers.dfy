/** Optional values, for Python expressions that may fail or yield None. */
module Wrappers {
  datatype Option<+T> = None | Some(value: T)
}
