/** The optional-value datatype the model uses for "a value may be absent". */
module Wrappers {

  datatype Option<+T> = None | Some(value: T)
}
