/** A minimal optional-value datatype used by the score parser. */
module Wrappers {

  datatype Option<+T> = None | Some(value: T)
}
