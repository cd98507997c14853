/** The conventional optional value, used where the C code returns NULL or leaves a buffer unassigned. */
module Options {
  datatype Option<+T> = None | Some(value: T)
}
