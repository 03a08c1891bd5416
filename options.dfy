/** Java's nullable references, as values. */
module Options {

  /** `None` stands for Java's `null`. */
  datatype Option<+T> = None | Some(value: T)
}
