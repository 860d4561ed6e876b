/** Optional values: the components' `error` state cell holds `null` or a message. */
module Wrappers {

  datatype Option<+T> = None | Some(value: T)
}
