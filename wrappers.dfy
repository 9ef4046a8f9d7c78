/** Optional values: the model's stand-in for a nullable reference or column. */
module Wrappers {

  datatype Option<+T> = None | Some(value: T)
}
