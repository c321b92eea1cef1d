/** Optional values: an absent attribute, an element without text, a child that `find` did not find. */
module Wrappers {
  datatype Option<+T> = None | Some(value: T)
}
