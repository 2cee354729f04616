/** Optional values, used wherever the C code uses a null pointer or a -1 index. */
module Wrappers {
  datatype Option<+T> = None | Some(value: T)
}
