/** A value or nothing, where the sources use `None`, `null` or an empty answer. */
module Options {
  datatype Option<+T> = None | Some(value: T)
}
