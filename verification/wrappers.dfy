/** Optional values, used where the source stores `null` or an absent value. */
module Wrappers {

  datatype Option<+T> = None | Some(value: T)
}
