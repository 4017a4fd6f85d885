/** The optional value used wherever the source has a value that may be null
    or undefined, or a call that may throw. */
module Options {

  datatype Option<+T> = None | Some(value: T)

}
