/** The optional result shared by the string and address modules. */
module Options {
  datatype Option<+T> = None | Some(value: T)
}
