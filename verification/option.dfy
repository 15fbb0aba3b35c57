/** An optional value, for the places where the source returns a nullable pointer or an
    empty handle. */
module Optional {
  datatype Option<T> = None | Some(value: T)
}
