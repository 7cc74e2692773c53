/** An optional value: a found index, a matching case, or nothing. */
module Options {
  datatype Option<+T> = None | Some(value: T)
}
