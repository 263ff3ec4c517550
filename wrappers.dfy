/** Optional values: a JSON field or a SQL column that may be absent or NULL. */
module Wrappers {
  datatype Option<+T> = None | Some(value: T)
}
