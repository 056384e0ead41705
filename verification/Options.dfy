/** The optional value shared by the modules below (the source's `None` or a value). */
module Options {
  datatype Option<+T> = None | Some(value: T)
}
