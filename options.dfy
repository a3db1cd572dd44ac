module Options {
  /** A value that may be absent: Python's `X | None`. */
  datatype Option<T> = None | Some(value: T)
}
