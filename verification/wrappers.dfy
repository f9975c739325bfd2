/** The optional value used wherever the source returns `undefined` or a
    failed `match` (null). */
module Wrappers {

  datatype Option<+T> = None | Some(value: T)
}
