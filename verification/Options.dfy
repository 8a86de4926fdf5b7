/** A value that may be absent: Go's nil pointer, nil channel or missing key. */
module Options {
  datatype Option<+T> = None | Some(value: T)
}
