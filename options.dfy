/** A value that may be absent: a missing JSON field or an unset environment variable. */
module Options {

  datatype Option<T> = None | Some(value: T)
}
