/** Optional values: a JSON field that may be absent, a stored value that may not exist yet. */
module Wrappers {

  datatype Option<+T> = None | Some(value: T)

}
