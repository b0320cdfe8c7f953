/** A value or none, as the other modules use it for optional fields and for errors. */
module Options {
  datatype Option<+T> = None | Some(value: T)
}
