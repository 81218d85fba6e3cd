/** The optional value of PHP's nullable types (`?int`, `?Value`, ...). */
module Wrappers {

  datatype Option<+T> = None | Some(value: T)
}
