/** Optional values: a lookup that may find no row (`fetchone()` returning `None`). */
module Options {
  datatype Option<T> = None | Some(value: T)
}
