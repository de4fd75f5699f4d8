// The optional value used for the program's nullable pointers.
module Optional {
  datatype Option<T> = None | Some(value: T)
}
