/** A value that may be missing: a null pointer, or an operation that failed. */
module Options {
  datatype Option<+T> = None | Some(value: T)
}
