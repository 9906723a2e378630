/** A value that may be absent: JavaScript's `null` for a missing close day, an
    unset extreme date, or a string that does not parse as a day. */
module Options {
  datatype Option<T> = None | Some(value: T)
}
