/** The optional value used throughout the model for the source's `Option`. */
module Options {
  datatype Option<+T> = None | Some(value: T)
}
