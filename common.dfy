/** Small shared datatypes. */
module Common {

  /** An optional value: `None` when a lookup or a parse finds nothing. */
  datatype Option<+T> = None | Some(value: T)
}
