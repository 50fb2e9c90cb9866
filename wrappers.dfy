/** Optional values, used where the source returns NULL or reports an error code. */
module Wrappers {
  datatype Option<+T> = None | Some(value: T)
}
