/** The optional value used wherever the program returns std::optional or None. */
module Optional {
  datatype Option<+T> = None | Some(value: T)
}
