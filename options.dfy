/** Rust's `Option<T>`: the optional selection of a list and the optional draft snippet. */
module Options {

  datatype Option<T> = None | Some(value: T)
}
