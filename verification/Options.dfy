module Options {
  // A value that may be missing: the source's undefined and null.
  datatype Option<+T> = None | Some(value: T)
}
