/** The optional value used wherever the source has `null`, `undefined` or a missing field. */
module Maybe {
  datatype Option<T> = None | Some(value: T)
}
