/** An optional value: NULL, an error return, or a call that blocks is None. */
module Options {
  datatype Option<+T> = None | Some(value: T)
}
