// A value that may be missing: a null pointer or an error return in the source.
module Options {
  datatype Option<+T> = None | Some(value: T)
}
