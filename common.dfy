/** Small shared datatypes. */
module Common {

  /** A value that may be absent: Rust's `Option`. */
  datatype Option<+T> = None | Some(value: T)
}
