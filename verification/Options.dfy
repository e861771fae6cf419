/** A value that may be missing: Python's None, pandas' NaN and NaT. */
module Options {
  datatype Option<+T> = None | Some(value: T)
}
