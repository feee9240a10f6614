/** Optional values: a nullable column, a lookup that may fail, a call that may raise. */
module Options {
  datatype Option<+T> = None | Some(value: T)
}
