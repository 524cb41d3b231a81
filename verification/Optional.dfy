/** An optional value, for nil pointers, missing map entries and results that may fail. */
module Optional {
  datatype Option<+T> = None | Some(value: T)
}
