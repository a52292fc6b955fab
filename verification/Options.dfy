/** Go's (value, ok) and (value, error) results. */
module Options {
  datatype Option<+T> = None | Some(value: T)
}
