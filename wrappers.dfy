/** Optional values: Java's `null`-or-object results, made explicit. */
module Wrappers {

  datatype Option<+T> = None | Some(value: T)
}
