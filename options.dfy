/** The optional value used where the Python code returns `None` or a match object. */
module Options {

  datatype Option<+T> = None | Some(value: T)
}
