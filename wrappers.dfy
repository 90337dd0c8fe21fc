/** Optional values: `None` stands for "no value was produced". */
module Wrappers {
  datatype Option<+T> = None | Some(value: T)
}
