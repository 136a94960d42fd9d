/** The optional value that stands for JavaScript's `null` / "no value" results. */
module Wrappers {
  datatype Option<+T> = None | Some(value: T)
}
