/** An optional value: a JavaScript property that may be absent, or a lookup that may find nothing. */
module Options {
  datatype Option<+T> = None | Some(value: T)
}
