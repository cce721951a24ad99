/** The values a computation may not have. */
module Options {
  datatype Option<+T> = None | Some(value: T)
}
