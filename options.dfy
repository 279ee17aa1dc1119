/** JavaScript's `T | null` / `T | undefined`, as a value. */
module Options {

  datatype Option<+T> = None | Some(value: T)
}
