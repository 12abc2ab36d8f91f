/** Optional values: a missing JSON key, a directory that cannot be listed, a search that finds nothing. */
module Wrappers {

  datatype Option<+T> = None | Some(value: T)
}
