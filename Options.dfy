/** A value that may be absent: a form field the client did not send, a row a query did not find. */
module Options {
  datatype Option<+T> = None | Some(value: T)
}
