/** An optional value: `Some` carries a value, `None` stands for its absence. */
module Wrappers {

  datatype Option<+T> = None | Some(value: T)
}
