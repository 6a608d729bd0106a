/** The optional value of a field that a JSON log record may leave out. */
module Options {
  datatype Option<+T> = None | Some(value: T)
}
