/** A value that may be absent: a missing key, an unknown operation tag. */
module Options {

  datatype Option<T> = None | Some(value: T)
}
