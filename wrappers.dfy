/** Optional values: Python's None, or a value that is present. */
module Wrappers {

  datatype Option<+T> = None | Some(value: T)
}
