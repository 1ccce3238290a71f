/** Optional values: a missing request field, or a number parse that gave NaN. */
module Wrappers {

  datatype Option<+T> = None | Some(value: T)
}
