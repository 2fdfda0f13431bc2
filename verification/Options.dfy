/** An optional value; `None` stands for C's null pointer or for a dereference of one. */
module Options {
  datatype Option<+T> = None | Some(value: T)
}
