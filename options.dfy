/** The optional value used wherever the Java code returns an `Optional`. */
module Options {
  datatype Option<+T> = None | Some(value: T)
}
