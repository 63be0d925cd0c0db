/** The value that may be absent: the source's null pointers and -1 lengths. */
module Options {
  datatype Option<+T> = None | Some(value: T)
}
