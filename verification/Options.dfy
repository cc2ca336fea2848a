/** Option in its usual form. */
module Options {
  datatype Option<+T> = None | Some(value: T)
}
