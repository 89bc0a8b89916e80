/** The usual optional-value datatype, for Python's `None`. */
module Optional {
  datatype Option<T> = None | Some(value: T)
}
