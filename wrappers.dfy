/** Optional values: a JSON field that may be absent from a webhook body. */
module Wrappers {

  datatype Option<+T> = None | Some(value: T)
}
