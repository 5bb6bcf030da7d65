/** The optional value used wherever the source has `null`, `undefined` or a
    `find` that may come back empty. */
module Wrappers {

  datatype Option<+T> = None | Some(value: T)
}
