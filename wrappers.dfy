/** Optional values: a request field, header or query parameter that may be absent. */
module Wrappers {

  datatype Option<+T> = None | Some(value: T)
}
