/** An optional value: a null pointer, or a datagram that may or may not be there. */
module Options {
  datatype Option<T> = None | Some(value: T)
}
