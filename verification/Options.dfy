/** A value that may be absent: JavaScript's `undefined`, or a value of the wrong kind. */
module Options {
  datatype Option<+T> = None | Some(value: T)
}
