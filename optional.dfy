/** The optional value used for the source's `None`. */
module Optional {
  datatype Option<T> = None | Some(value: T)
}
