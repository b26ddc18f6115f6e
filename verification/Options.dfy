/** The usual option type. */
module Options {

  datatype Option<+T> = None | Some(value: T)
}
