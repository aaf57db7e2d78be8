/** A value that may be absent: NULL pointers and failed lookups. */
module Options {
  datatype Option<+T> = None | Some(value: T)
}
