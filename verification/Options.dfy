/** A value that may be missing: Go's nil pointers and `ok` results. */
module Options {
  datatype Option<T> = None | Some(value: T)
}
