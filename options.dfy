/** The optional value shared by the front-end and back-end models. */
module Options {
  datatype Option<+T> = None | Some(value: T)
}
