/** Optional values, for null pointers and for searches that may fail. */
module Options {
  datatype Option<+T> = None | Some(value: T)
}
