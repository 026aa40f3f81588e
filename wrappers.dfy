/** The optional-value datatype the rest of the model uses where C# returns a value or nothing. */
module Wrappers {

  datatype Option<+T> = None | Some(value: T)
}
