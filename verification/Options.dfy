/** A value that may be missing: nil pointers, absent map entries, "not found". */
module Options {
  datatype Option<+T> = None | Some(value: T)
}
