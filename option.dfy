/** An optional value, for selectors that have no answer in some states. */
module Options {
  datatype Option<T> = None | Some(value: T)
}
