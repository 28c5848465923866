/** Optional values: the model's stand-in for null pointers and empty `unique_ptr`s. */
module Wrappers {

  datatype Option<+T> = None | Some(value: T)
}
