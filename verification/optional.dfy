/** An optional value, used for request fields and options that may be absent. */
module Optional {

  datatype Option<T> = None | Some(value: T)
}
