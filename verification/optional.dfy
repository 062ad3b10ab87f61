/** A value that may be absent: an unset environment variable or a missing JSON key. */
module Optional {

  datatype Option<+T> = None | Some(value: T)
}
