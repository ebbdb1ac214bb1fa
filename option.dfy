/** An optional value, used where the Python code has `None`. */
module Options {
  datatype Option<+T> = None | Some(value: T)
}
