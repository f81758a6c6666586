/** Optional values, standing for JavaScript's `null`/`undefined` where the model needs them. */
module Wrappers {
  datatype Option<+T> = None | Some(value: T)
}
