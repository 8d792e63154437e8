/** Optional values, standing for Go's nil-or-value results and arguments. */
module Wrappers {

  datatype Option<+T> = None | Some(value: T)
}
