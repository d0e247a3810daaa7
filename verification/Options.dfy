/** The conventional optional value, used wherever the source returns a value
    with an `ok` flag, a nil pointer, or a nil error. */
module Options {
  datatype Option<+T> = None | Some(value: T)
}
