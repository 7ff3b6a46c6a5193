/** A value that may be absent, as `java.util.Optional` is. */
module Optional {

  datatype Option<T> = None | Some(value: T)
}
