/** Optional values: a host call that may fail or a panel state that may not be produced. */
module Wrappers {

  datatype Option<+T> = None | Some(value: T)
}
