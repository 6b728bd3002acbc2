/** Optional values, used where the source signals "no value" with a sentinel or a null object. */
module Wrappers {
  datatype Option<+T> = None | Some(value: T)
}
