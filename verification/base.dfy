/** The optional value shared by the service and the JSON model. */
module Base {
  datatype Option<T> = None | Some(value: T)
}
