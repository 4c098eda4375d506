/** A value that may be absent: JavaScript's `null`/`undefined` in the chat state. */
module Optional {

  datatype Option<+T> = None | Some(value: T)
}
