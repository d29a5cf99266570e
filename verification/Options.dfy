module Options {
  /** A value that may be absent: the source's null pointers and -1 results. */
  datatype Option<+T> = None | Some(value: T)
}
