/** The optional value that the source expresses with a nullable reference. */
module Options {
  datatype Option<+T> = None | Some(value: T)
}
