/** The optional value every module of the model uses for "no result". */
module Options {
  datatype Option<+T> = None | Some(value: T)
}
