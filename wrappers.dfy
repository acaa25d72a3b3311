/** The optional-value datatype used wherever a PHP value may be missing (`null`). */
module Wrappers {

  datatype Option<+T> = None | Some(value: T)

}
