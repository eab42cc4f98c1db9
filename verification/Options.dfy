/** A value that may be absent: the C code's null pointers. */
module Options {
  datatype Option<+T> = None | Some(value: T)
}
