/** Optional values: SQL NULL, an unset environment variable, an error that may or may not occur. */
module Wrappers {
  datatype Option<+T> = None | Some(value: T)
}
