// A value that may be missing: a nil error, an absent map entry.
module Options {
  datatype Option<T> = None | Some(value: T)
}
