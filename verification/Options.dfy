// The std::optional of the source, also used for "a value, or a thrown exception".
module Options {
  datatype Option<+T> = None | Some(value: T)
}
