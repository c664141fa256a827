/** The absent-or-present value that stands for Python's None and for a missing dictionary key. */
module Options {
  datatype Option<+T> = None | Some(value: T)
}
