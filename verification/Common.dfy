/** Shared datatypes. */
module Common {
  datatype Option<+T> = None | Some(value: T)
}
