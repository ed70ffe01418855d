/** Optional values: a PHP `null`, a missing JavaScript property, an absent HTTP header. */
module Wrappers {

  datatype Option<+T> = None | Some(value: T)
}
