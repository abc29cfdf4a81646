/** An absent-or-present value, used for the editor's nullable image fields
    and for results that may not exist. */
module Optional {
  datatype Option<+T> = None | Some(value: T)
}
