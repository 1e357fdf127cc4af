/** Values that may be absent: null pointers, undefined and NaN. */
module Options {
  datatype Option<+T> = None | Some(value: T)
}
