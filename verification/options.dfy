/**
 * Nullable values of the store: `None` is PHP's `null`, `Some(v)` a
 * string, transformer or flag that is present.
 */
module Optional {

  datatype Option<T> = None | Some(value: T)
}
