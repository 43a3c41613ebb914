/** Optional values: the stand-in for a C# reference or Unity field that may be null. */
module Wrappers {
  datatype Option<+T> = None | Some(value: T)
}
