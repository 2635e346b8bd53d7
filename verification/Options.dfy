/** A result that may be missing: a NULL pointer, a failed lookup, a stop of the kernel. */
module Options {
  datatype Option<+T> = None | Some(value: T)
}
