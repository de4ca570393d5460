/** The optional value the C++ code writes as std::optional. */
module Options {
  datatype Option<+T> = None | Some(value: T)
}
