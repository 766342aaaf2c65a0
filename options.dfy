/** Rust's `Option`, used for intersection results and for sampling that may run out of draws. */
module Options {
  datatype Option<+T> = None | Some(value: T)
}
