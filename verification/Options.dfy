/** A value that may be missing: a read that failed, a text that is not a number. */
module Options {
  datatype Option<+T> = None | Some(value: T)
}
