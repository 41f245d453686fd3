// What the queue carries.
module Values {
  type Value(!new)

  datatype Option<+A> = None | Some(value: A)
}
