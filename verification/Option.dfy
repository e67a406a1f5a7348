/** The usual optional value, standing for the source's NULL pointers. */
module Option {
  datatype Option<+T> = None | Some(value: T)
}
