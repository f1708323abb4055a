/** Java's nullable references: `None` stands for `null` (or for an exception, where noted). */
module Options {
  datatype Option<+T> = None | Some(value: T)
}
