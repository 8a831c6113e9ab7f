/** The optional value used across the model in place of null pointers and -1 results. */
module Options {
  datatype Option<+T> = None | Some(value: T)
}
