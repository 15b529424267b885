/** Optional values, used where the source returns a row or `null`. */
module Wrappers {

  datatype Option<+T> = None | Some(value: T)
}
