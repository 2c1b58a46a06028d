/** The usual Some/None wrapper, used wherever a step of a run can come back empty. */
module Optional {
  datatype Option<T> = None | Some(value: T)
}
