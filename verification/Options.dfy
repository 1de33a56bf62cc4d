// A value that may be missing, as a C function's NULL return.
module Options {
  datatype Option<+T> = None | Some(value: T)
}
