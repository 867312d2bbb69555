/** A value or its absence: a nil pointer, or a lookup that may miss. */
module Options {
  datatype Option<+T> = None | Some(value: T)
}
