/** The optional value used for the C code's nullable pointers. */
module Options {

  datatype Option<+T> = None | Some(value: T)
}
