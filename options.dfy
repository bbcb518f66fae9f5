/** The usual optional value, used for "no result" answers. */
module Options {

  datatype Option<+T> = None | Some(value: T)
}
