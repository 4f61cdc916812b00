/** Optional values, used where the C# code returns null or a "not found" flag. */
module Wrappers {
  datatype Option<T> = None | Some(value: T)
}
