/** Optional values, standing for PHP's "value or false/null" returns. */
module Wrappers {

  datatype Option<+T> = None | Some(value: T)
}
