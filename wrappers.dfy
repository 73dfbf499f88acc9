/** Optional values, for the results of the source's fallible calls. */
module Wrappers {
  datatype Option<+T> = None | Some(value: T)
}
