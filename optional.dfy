/** The usual Some/None wrapper, for lookups and parses that may fail. */
module Optional {

  datatype Option<T> = None | Some(value: T)

}
