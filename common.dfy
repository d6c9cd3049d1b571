/** Small shared vocabulary. */
module Common {

  /** A value that may be absent: the model of a nullable reference or a missing key. */
  datatype Option<+T> = None | Some(value: T)
}
