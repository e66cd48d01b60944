// The optional value used where the program holds `None` or one value.

module Optional {

  datatype Option<T> = None | Some(value: T)
}
