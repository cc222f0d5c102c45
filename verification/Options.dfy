/** Values that may be absent, shared by all models. */
module Options {
  datatype Option<+T> = None | Some(value: T)
}
