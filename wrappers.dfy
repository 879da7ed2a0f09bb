/** Optional values: `None` plays the part of JavaScript's `null` (and of `NaN` for a failed parse). */
module Wrappers {
  datatype Option<+T> = None | Some(value: T)
}
