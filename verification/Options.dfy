/** An optional value; `None` also stands for a failed assertion of the original. */
module Options {
  datatype Option<+T> = None | Some(value: T)
}
