/** Optional values: a request field, header or lookup that may be absent. */
module Wrappers {

  datatype Option<+T> = None | Some(value: T)
}
