/** The usual optional value: `None` stands for JavaScript's `null` or `undefined`. */
module Opt {
  datatype Option<+T> = None | Some(value: T)
}
