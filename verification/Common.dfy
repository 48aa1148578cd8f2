/** What several parts of the model share. */
module Common {

  /** A nullable column or an optional result. */
  datatype Option<+T> = None | Some(value: T)
}
