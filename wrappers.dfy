/** Optional values: `None` stands for a payload that did not decode. */
module Wrappers {
  datatype Option<T> = None | Some(value: T)
}
