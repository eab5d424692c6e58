/** Optional values, used for keys that an inventory may or may not carry. */
module Wrappers {

  datatype Option<+T> = None | Some(value: T)

}
