/** Python's `Optional[T]`: a value that may be absent (`None`). */
module Optional {

  datatype Option<+T> = None | Some(value: T)
}
