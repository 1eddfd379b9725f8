/** The one value type shared by all components: a pointer that may be NULL, a
    lookup that may miss, a call that may fail. */
module Options {
  datatype Option<+T> = None | Some(value: T)
}
