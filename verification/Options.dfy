/** A value that may be absent, where the source has a null pointer. */
module Options {
  datatype Option<T> = None | Some(value: T)
}
