/** The optional value used for the calculator's nullable fields. */
module Options {

  /** `None` stands for the source's `null`. */
  datatype Option<+T> = None | Some(value: T)
}
