/** A value that may be absent: a missing row, NaN, a void. */
module Options {
  datatype Option<+T> = None | Some(value: T)
}
