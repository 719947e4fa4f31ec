/** A value that may be missing: `std::optional`, or the holder of a free mutex. */
module Options {
  datatype Option<+T> = None | Some(value: T)
}
