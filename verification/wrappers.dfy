/** The optional value used wherever the source has a nullable field or an
    `undefined` result. */
module Wrappers {

  /** `None` stands for JavaScript's `null` / `undefined`. */
  datatype Option<+T> = None | Some(value: T)
}
