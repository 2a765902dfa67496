/** A value that may be missing: a lookup that fails, a step that is not enabled, a machine that stops. */
module Options {
  datatype Option<+T> = None | Some(value: T)
}
