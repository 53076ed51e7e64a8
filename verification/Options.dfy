/** The optional values every other module uses. */
module Options {
  datatype Option<+T> = None | Some(value: T)
}
